# EP_Forecasting core in Dafny

This project models the sequential core of EP_Forecasting, the Python tooling that
forecasts ACCUs (Australian Carbon Credit Units) for Emissions Reduction Fund plantation
and environmental-planting projects and records those forecasts in a master inventory
workbook. Everything is written in Dafny 4 and verified. Spreadsheets become maps from
(row, column) to cell values. Readings that the scripts take from a recalculated Excel
workbook become oracle functions passed in as parameters.

The model has three parts.

1. **Forecast arithmetic**
   - `Dates`: a proleptic Gregorian date type. It has `AddYears`, which clamps 29 February
     to the 28th as `relativedelta` does, and `AddDays` through a day ordinal.
   - `Eq16`:
     - the completed-months counter `months_completed`;
     - Equation 16 of Schedule 4 (the stock interpolation clamped to 180 months);
     - the permanence factor;
     - the unit conversions and area scaling.
   - `Schedules`: the three schedule builders:
     - the annual `generate_rp_schedule`;
     - the anniversary periods of the Schedule 1 forecaster;
     - the first-of-month `date_pairs` of the Coalara calculator.
   - The four issuance loops:
     - `Sch4Forecast`: a flat discount, with the deduction taken at the issued level;
     - `PfSchedule4`: the deduction first, then the discount;
     - `CoalaraSch4`: cumulative in carbon units, with the 44/12 CO2-e conversion;
     - `CoalaraCalc`: the ratcheted cap, in integer cents, in both its v1 and v2 (CEA-deduction) blocks.
   - `Sch1`: the Schedule 1 runner, with:
     - its nearest-date matcher;
     - the retry loop;
     - the None-tolerant cumulative total.
2. **Sheet and ledger operations**
   - `Cells`: cell values and a `Sheet` class (cells, `max_row`, `max_column`, images).
   - `EpEngine`: the label index and required-label check of the EP forecast engine, its
     five input writes and its project-start lookup.
   - `Headers`, `Ledger` and `Inventory`: the header map, `_ensure_headers` and the
     append-only inventory update of `add_forecast_to_inventory.py`.
   - `CleanExport`: the clean-up of a Monday.com Master Inventory export.
3. **String and list helpers**
   - `MergeUtils`: header normalisation, month-end keys, the keep-last de-duplication and the
     column order of the Schedule 4 merge.
   - `CombineCsvs`: sheet-name sanitising and uniquifying, and the case-insensitive column lookup.
   - `VenvWizard` and `OnlyBinary`:
     - pip spec name parsing;
     - Python-minor normalisation;
     - the GeoPandas install order and the split of the install into pip calls;
     - the `PIP_ONLY_BINARY` merge.
   - `Text`, `DateText` and `Wrappers`: string, date-text and Option/Result helpers.

Two facts about the code that the model states outright:
- With CBASE 728.8, CLT 149697 and DPP 0.75 the first period's stock is 37970.85
  (`Eq16.CoalaraFirstPeriodStock`).
- The inventory update only appends rows. The delta workbook records the run date, the ERF
  and the number of rows added (`Ledger.Summary`).

Some behaviour of the code as written is modelled as it is and stated as such:
- `_normalise_headers` never renames the double-space variants (`MergeUtils.NormaliseHeaderSpec`).
- The month-end key puts February on the 28th even in leap years (`MergeUtils.MonthEndSpec`).
- `_pkg_name` tries its separators in list order, not in text order (`VenvWizard.PkgNameListOrder`).

## Model

| member | source | states |
|---|---|---|
| `Cells.FirstRow` | add_forecast_to_inventory.py:110-113 | The row scan finds a row in `lo..hi` satisfying the test, with no earlier row satisfying it, or `None` exactly when no row in the range does. |
| `Cells.IndexUpToSpec` | Ep_Forecast_Engine.py:93-101 | A first-occurrence index holds exactly the non-empty keys of positions `1..k`, each mapped to the first position carrying it. |
| `Cells.IndexSameKeys` | Ep_Forecast_Engine.py:96-100 | The index depends only on the keys of the scanned positions. |
| `Cells.IndexRowsDistinct` | Ep_Forecast_Engine.py:99-100 | Two different keys of an index sit at different positions. |
| `Cells.Sheet.Write` | add_forecast_to_inventory.py:137 | Writing a cell sets that cell, leaves every other cell alone and grows `max_row`/`max_column` to include it. |
| `Cells.Sheet.DeleteTopRows` | helpers/clean_mi_export.py:111 | `delete_rows(1, k)` moves every later row up by `k` and shrinks `max_row` by `k`. |
| `Dates.AddYears` | PF_2020/PF_Sch4_Forecaster.py:136-137 | `relativedelta(years=n)`: the year moves by `n`, the month stays, and the day is clamped to the month's length (29 February becomes the 28th). |
| `Dates.AddDaysOrdinal` | add_forecast_to_inventory.py:209-210 | Adding `n` days moves the day ordinal by exactly `n`. |
| `Dates.AddDaysInverse` | PF_2020/PF_Sch1_Forecaster.py:156 | Subtracting the days that were added gives back the date. |
| `Dates.AddDaysAdd` | PF_2020/PF_Sch1_Forecaster.py:200-204 | Adding `m` days and then `n` days is adding `m + n` days. |
| `Dates.BeforeOrdinal` | PF_2020/PF_Sch4_Forecaster.py:108 | Date comparison agrees with the comparison of day ordinals. |
| `DateText.Strptime` | PF_2020/PF_Sch1_Forecaster.py:78-82 | A fixed-format parse succeeds only with a year in 1..9999 and a valid day. |
| `DateText.TryFormats` | PF_2020/PF_Sch1_Forecaster.py:78-83 | The format loop returns the parse of one of the formats, or `None` exactly when every format fails. |
| `DateText.IsoRoundTrip` | PF_2020/Coalara_Forecaster/Coalara_Calculatorv2.py:59-60 | A date written as `%Y-%m-%d` parses back with that format to the same date. |
| `DateText.DmyRoundTrip` | PF_2020/PF_Sch1_Forecaster.py:78-80 | A date written as `%d/%m/%Y` parses back with that format to the same date. |
| `DateText.NoSeparatorFails` | add_forecast_to_inventory.py:125-129 | Text that lacks a format's separator never parses with that format. |
| `Eq16.MonthsAntisymmetric` | PF_2020/PF_Sch4_Forecaster.py:108-109 | `months_completed(a, b) == -months_completed(b, a)` for all dates. |
| `Eq16.MonthsForward` | PF_2020/PF_Sch4_Forecaster.py:110-115 | For `d1 <= d2` the count is 12·Δyear + Δmonth, less one when `d2.day < d1.day`, and it is never negative. |
| `Eq16.MonthsMonotone` | PF_2020/PF_Sch4_Forecaster.py:103-115 | With `d1` fixed, the count never decreases as `d2` moves later. |
| `Eq16.MonthsOverYear` | PF_2020/PF_Sch4_Forecaster.py:110-115 | A date one year later is exactly 12 completed months later. |
| `Eq16.ClampMonths` | PF_2020/PF_Sch4_Forecaster.py:128 | The month count is clamped to [0, 180]. It is kept when inside that range, and both spellings of the clamp agree. |
| `Eq16.Eq16AtStart` | PF_2020/PF_Sch4_Forecaster.py:128-129 | Any `n <= 0` gives the baseline stock CBASE. |
| `Eq16.Eq16AtEnd` | PF_2020/PF_Sch4_Forecaster.py:128-129 | Any `n >= 180` gives CBASE + (CLT − CBASE)·DPP. |
| `Eq16.Eq16Monotone` | PF_2020/PF_Sch4_Forecaster.py:128-129 | With CLT ≥ CBASE and DPP ≥ 0 the stock never decreases in `n`. |
| `Eq16.Eq16Bounds` | PF_2020/PF_Sch4_Forecaster.py:128-129 | Under the same conditions the stock lies between CBASE and the discounted long-term stock. |
| `Eq16.PermanenceFactor` | PF_2020/PF_Sch4_Forecaster.py:44 | The discount is 0.75 exactly when the permanence period is 25 years, and 1.0 otherwise. |
| `Eq16.UnitsToCo2e` | PF_2020/PF_Sch4_Forecaster.py:96-101 | "CO2E" keeps the value, "C" multiplies by 44/12, and any other unit is an error. The unit is matched after upper-casing. |
| `Eq16.UnitsCaseInsensitive` | PF_2020/PF_Sch4_Forecaster.py:97-99 | Unit names that differ only in case convert alike. |
| `Eq16.Co2eUnitKeepsValue` | PF_2020/PF_Sch4_Forecaster.py:61 | The script's own unit setting "CO2E" leaves values unchanged. |
| `Eq16.CarbonUnitSpellings` | PF_2020/PF_Sch4_Forecaster.py:99 | Exactly "c" and "C" select the carbon conversion. |
| `Eq16.FlagToCo2e` | COALARA/Coalara_Forecaster/PF_Schedule4_Forecaster.py:41-42 | With the conversion on, the value is multiplied by 44/12. With it off, the value is unchanged. |
| `Eq16.CarbonRoundTrip` | COALARA/Coalara_Forecaster/PF_Schedule4_Forecaster.py:84-87 | The deduction converted to carbon units (×12/44) converts back to the configured CO2-e deduction. |
| `Eq16.MaybeArea` | COALARA/Coalara_Forecaster/PF_Schedule4_Forecaster.py:44-45 | The value is scaled by the area only when an area is configured. |
| `Eq16.MaybeAreaLinear` | COALARA/Coalara_Forecaster/PF_Schedule4_Forecaster.py:44-45 | Area scaling distributes over differences and sums. |
| `Eq16.CoalaraFirstPeriodMonths` | COALARA/Coalara_Forecaster/PF_Schedule4_Forecaster.py:16-18 | From 2021-06-25 to 2026-06-30 is 60 completed months. |
| `Eq16.CoalaraFirstPeriodStock` | COALARA/Coalara_Forecaster/PF_Schedule4_Forecaster.py:11-14 | With CBASE 728.8, CLT 149697 and DPP 0.75, the first period's stock is 37970.85. |
| `Schedules.IterYearsFields` | PF_2020/PF_Sch1_Forecaster.py:158 | `k` yearly steps move the year by `k`, keep the month and never raise the day. |
| `Schedules.IterYearsSucc` | PF_2020/PF_Sch1_Forecaster.py:158 | One more yearly step is one more `AddYears(_, 1)` at the end. |
| `Schedules.GenerateRpSchedule` | PF_2020/PF_Sch4_Forecaster.py:131-138 | The while loop returns exactly the schedule function's periods. |
| `Schedules.RpScheduleShape` | COALARA/Coalara_Forecaster/PF_Schedule4_Forecaster.py:62-70 | Entry `i` is the first period with both bounds moved on `i` years. |
| `Schedules.RpScheduleWithinEnd` | COALARA/Coalara_Forecaster/PF_Schedule4_Forecaster.py:66 | No emitted period ends after `last_end`. |
| `Schedules.RpScheduleSteps` | PF_2020/PF_Schedule4_Forecaster.py:59-60 | Consecutive periods move both bounds on by exactly one year. |
| `Schedules.RpScheduleFirst` | PF_2020/PF_Sch4_Forecaster.py:133-135 | The schedule starts with the first period, and it is empty exactly when `first_end > last_end`. |
| `Schedules.RpScheduleMaximal` | PF_2020/PF_Sch4_Forecaster.py:134 | The loop stops at the last period that fits: one more year would end after `last_end`. |
| `Schedules.RpScheduleLength` | PF_2020/PF_Schedule4_Forecaster.py:53-61 | When the first end is not 29 February, there is one period per year up to `last_end`. |
| `Schedules.Schedule4PeriodCount` | PF_2020/PF_Sch4_Forecaster.py:50-52 | The shipped constants (31 Oct 2025 to 30 Jun 2026, last end 30 Jun 2046) give 21 periods. |
| `Schedules.BuildAnniversaryPeriods` | PF_2020/PF_Sch1_Forecaster.py:144-159 | The loop returns exactly `years` periods. Period `i` starts `i` years after the project start and ends the day before the next anniversary. |
| `Schedules.AnniversaryContiguous` | PF_2020/PF_Sch1_Forecaster.py:156-158 | Each period starts on or before its end, RP1 starts at the project start, and end + 1 day is the next start. |
| `Schedules.CoalaraPairStep` | PF_2020/Coalara_Forecaster/Coalara_Calculatorv2.py:154-158 | One loop pass stores period `k` (the first of the anchor's month, to a year later less a day) as ISO text, and advances the anchor one year. |
| `Schedules.CoalaraDatePairs` | PF_2020/Coalara_Forecaster/Coalara_Calculatorv2.py:148-158 | The loop stores `num_years` pairs, pair `i` being period `i` as `%Y-%m-%d` text. |
| `Schedules.CoalaraPairsIndex` | PF_2020/Coalara_Forecaster/Coalara_Calculatorv2.py:27-37 | The pairs stored for the first `n` periods, read by index, are those periods' texts. |
| `Schedules.CoalaraContiguous` | PF_2020/Coalara_Forecaster/Coalara_Calculatorv2.py:33-37 | Period `i` starts on the 1st of the anchor's month `i` years on, and its end + 1 day is period `i+1`'s start. |
| `Schedules.CoalaraPairsParse` | PF_2020/Coalara_Forecaster/Coalara_Calculatorv2.py:59-60 | The stored strings parse back to the period's dates whenever its years have four digits. |
| `Sch4Forecast.ScaledInputs` | PF_2020/PF_Sch4_Forecaster.py:152-157 | The inputs are converted to CO2-e and area-scaled, or the result is the unit error. |
| `Sch4Forecast.ScaleInputs` | PF_2020/PF_Sch4_Forecaster.py:152-157 | The conversion code returns exactly `ScaledInputs`. |
| `Sch4Forecast.ForecastStep` | PF_2020/PF_Sch4_Forecaster.py:164-193 | One pass appends row `i` and keeps every earlier row. Every row follows the per-row rule: the months, the Eq 16 stock, the change from the previous stock, and issued = change × factor less the RP1 deduction. |
| `Sch4Forecast.Forecast` | PF_2020/PF_Sch4_Forecaster.py:150-195 | A unit error is raised before any row is built. Otherwise there is one row per scheduled period, each following the per-row rule. |
| `Sch4Forecast.Telescoping` | PF_2020/PF_Sch4_Forecaster.py:174-193 | The stock changes of the first `k+1` rows sum to row `k`'s stock. The issued units sum to that stock × factor less the deduction. |
| `Sch4Forecast.DeltaNonNegative` | PF_2020/PF_Sch4_Forecaster.py:174 | With CLT ≥ CBASE, no row after the first has a negative stock change. |
| `Sch4Forecast.FileFirstRow` | PF_2020/PF_Sch4_Forecaster.py:36-55 | The shipped parameters give 21 rows. The first has 60 months, stock 37737.9175 and 15482.438125 issued units. |
| `CoalaraSch4.ForecastStep` | COALARA/Coalara_Forecaster/PF_Schedule4_Forecaster.py:78-118 | One pass builds the expected row `i` and returns the raw stock and the new carried cumulative. |
| `CoalaraSch4.Forecast` | COALARA/Coalara_Forecaster/PF_Schedule4_Forecaster.py:72-120 | There is one result per scheduled period, each equal to the expected row. |
| `CoalaraSch4.ExpectedRows` | COALARA/Coalara_Forecaster/PF_Schedule4_Forecaster.py:72-120 | The returned rows, as a sequence, have one entry per period. |
| `CoalaraSch4.PrefixRows` | COALARA/Coalara_Forecaster/PF_Schedule4_Forecaster.py:78 | The rows of the first `k` periods are a prefix of the rows of the first `k+1`. |
| `CoalaraSch4.CumulativeIsRunningSum` | COALARA/Coalara_Forecaster/PF_Schedule4_Forecaster.py:89-118 | The emitted `cumulative_c_adj` of RP k is the sum of the emitted adjusted carbon credits of RPs 1..k. |
| `CoalaraSch4.CumulativeCo2eIsRunningSum` | COALARA/Coalara_Forecaster/PF_Schedule4_Forecaster.py:97-101 | The same running-sum property holds for the CO2-e columns. |
| `CoalaraSch4.CreditsTelescope` | COALARA/Coalara_Forecaster/PF_Schedule4_Forecaster.py:81-117 | `prev_cp_c` is carried raw, so the emitted annual credits sum to the emitted (scaled) stock. |
| `CoalaraSch4.Co2eFollowsCarbon` | COALARA/Coalara_Forecaster/PF_Schedule4_Forecaster.py:92-101 | Each CO2-e output is 44/12 times its carbon counterpart when the conversion is on, and equal to it when it is off. |
| `CoalaraSch4.AnnualIsStockChange` | COALARA/Coalara_Forecaster/PF_Schedule4_Forecaster.py:81 | After RP1, each emitted annual credit is the difference of the emitted stocks. |
| `CoalaraSch4.DeductionOnlyFirst` | COALARA/Coalara_Forecaster/PF_Schedule4_Forecaster.py:84-87 | Without area scaling, RP1's adjusted CO2-e credit is the unadjusted one less the CO2-e deduction. No later RP is adjusted. |
| `CoalaraSch4.FileFirstRow` | COALARA/Coalara_Forecaster/PF_Schedule4_Forecaster.py:11-23 | The shipped constants give 21 rows. The first has 60 months and carbon stock 37970.85. |
| `PfSchedule4.ExpectedRows` | PF_2020/PF_Schedule4_Forecaster.py:63-98 | The returned rows, as a sequence, have one entry per period. |
| `PfSchedule4.ForecastStep` | PF_2020/PF_Schedule4_Forecaster.py:69-96 | One pass builds the expected row `i`, with stock and credit unadjusted and the adjusted credit after deduction and discount. |
| `PfSchedule4.Forecast` | PF_2020/PF_Schedule4_Forecaster.py:63-98 | There is one result per period, each the expected row. The unreported `cum_c_adj` is the sum of the adjusted credits. |
| `PfSchedule4.AdjustedCredit` | PF_2020/PF_Schedule4_Forecaster.py:72-83 | For 25-year permanence, RP1's adjusted credit is (cp₁ − deduction)·0.75 and RP i's is (cpᵢ − cpᵢ₋₁)·0.75. |
| `PfSchedule4.DeductionBeforeDiscount` | PF_2020/PF_Schedule4_Forecaster.py:75-83 | If RP1's raw credit equals the deduction, RP1's adjusted credit is 0, whatever the discount. |
| `PfSchedule4.AdjustedTotal` | PF_2020/PF_Schedule4_Forecaster.py:85 | The adjusted credits of RPs 1..k+1 sum to the discounted stock of RP k+1 less the discounted deduction. |
| `PfSchedule4.FileFirstRow` | PF_2020/PF_Schedule4_Forecaster.py:11-21 | The shipped constants give 21 periods. The first has stock 46552.475 and adjusted credit 25298.60625. |
| `Sch1.ParseExcelDate` | PF_2020/PF_Sch1_Forecaster.py:69-83 | An empty cell gives `None`, and a datetime or date gives its date. Text gives the first of the four formats that parses it stripped, or `None`. It never raises. |
| `Sch1.ParseTrimmedText` | PF_2020/PF_Sch1_Forecaster.py:77-83 | Text without surrounding white space goes straight to the format loop. |
| `Sch1.ParseDmyText` | PF_2020/PF_Sch1_Forecaster.py:78-80 | `dd/mm/yyyy` text of a date reads back as that date. |
| `Sch1.ParseIsoText` | PF_2020/PF_Sch1_Forecaster.py:77-80 | ISO text of a date fails the first format and reads back as that date through `%Y-%m-%d`. |
| `Sch1.SafeFloat` | PF_2020/PF_Sch1_Forecaster.py:86-92 | An empty cell, or one `float()` rejects, gives `None` instead of raising. Otherwise the result is the float. |
| `Sch1.SafeFloatKinds` | PF_2020/PF_Sch1_Forecaster.py:86-92 | Integers, numbers and booleans always convert, and dates never do. |
| `Sch1.FullcamDates` | PF_2020/PF_Sch1_Forecaster.py:116-121 | The loaded dates are no more than the cells read. |
| `Sch1.LoadFullcamDates` | PF_2020/PF_Sch1_Forecaster.py:111-121 | The loop keeps every cell that parses, in order. |
| `Sch1.FindNearest` | PF_2020/PF_Sch1_Forecaster.py:124-141 | The loop returns exactly the matcher's specified result. |
| `Sch1.BestBySpec` | PF_2020/PF_Sch1_Forecaster.py:133-141 | The result is `None` exactly when no entry is within tolerance. Otherwise it is an entry within tolerance, at least as close as every such entry and strictly closer than those before it. |
| `Sch1.BestWithinSpec` | PF_2020/PF_Sch1_Forecaster.py:135-140 | The same property, stated for the day-distance to the target. |
| `Sch1.NearestSpec` | PF_2020/PF_Sch1_Forecaster.py:124-141 | An empty list gives `None` and a present target returns itself. Otherwise the result is the closest date within ±tolerance, the earliest winning ties, or `None` when no date is within tolerance. |
| `Sch1.StopsFromSpec` | PF_2020/PF_Sch1_Forecaster.py:232-242 | A stop-at-first-success loop makes at most `n` attempts, every attempt but the last fails, and an early stop means the last attempt succeeded. |
| `Sch1.AttemptsSpec` | PF_2020/PF_Sch1_Forecaster.py:232-242 | The retry loop reads between 1 and RECALC_RETRIES + 1 times, and stops at the first read of D30 that converts. |
| `Sch1.ReadWithRetries` | PF_2020/PF_Sch1_Forecaster.py:232-242 | The ACCUs and stock returned are those of the last attempt made. |
| `Sch1.PeriodStep` | PF_2020/PF_Sch1_Forecaster.py:210-257 | One period builds its row (the date used is `rp_end` when no FullCAM date was found), adds a present reading to `cum`, and sets `cum_has_value` once a reading is present. |
| `Sch1.RowFromReadings` | PF_2020/PF_Sch1_Forecaster.py:244-247 | The running total after period `i` is the one before it plus the period's reading, with a missing reading counting as zero. |
| `Sch1.FindFcDate` | PF_2020/PF_Sch1_Forecaster.py:199-208 | Lookup falls back from `rp_end`, to `rp_end + 1 day`, to `rp_start`. |
| `Sch1.Accumulate` | PF_2020/PF_Sch1_Forecaster.py:244-247 | A missing reading leaves the total and the flag as they were. A present one is added and sets the flag. |
| `Sch1.ExpectedRowGiven` | PF_2020/PF_Sch1_Forecaster.py:249-257 | Row `i` built from its FullCAM date and the running total is the expected row. |
| `Sch1.PeriodLoop` | PF_2020/PF_Sch1_Forecaster.py:194-257 | The loop over the anniversary periods produces exactly the expected row of every period. |
| `Sch1.RunForecast` | PF_2020/PF_Sch1_Forecaster.py:180-257 | It raises exactly when no FullCAM date loads. Otherwise it returns one expected row for each of the periods. |
| `Sch1.NoDateRow` | PF_2020/PF_Sch1_Forecaster.py:210-221 | A period without a FullCAM date has `calculated_accus = None` and `fullcam_date_used = rp_end`, and leaves the running total unchanged. |
| `Sch1.RunningSumOfRows` | PF_2020/PF_Sch1_Forecaster.py:245-255 | The running total of the first `k` readings is the sum of the values the first `k` rows report, and it is known exactly when one of them reports a value. |
| `Sch1.CumIsSumOfRows` | PF_2020/PF_Sch1_Forecaster.py:195-196 | `cum` after `k` periods is the sum of the non-None ACCU values of the first `k` rows. |
| `Sch1.CumulativeColumn` | PF_2020/PF_Sch1_Forecaster.py:245-255 | The reported cumulative is `None` until the first value, and from then on the sum of every value so far. |
| `Sch1.AnyKnownStays` | PF_2020/PF_Sch1_Forecaster.py:247 | Once a reading is present, `cum_has_value` stays true. |
| `Sch1.CumulativeStays` | PF_2020/PF_Sch1_Forecaster.py:255 | Once the reported cumulative is a number, it stays a number. |
| `Sch1.FilePeriods` | PF_2020/PF_Sch1_Forecaster.py:40-43 | The shipped settings give 25 periods. The first runs from 2022-06-25 to 2023-06-24 and the second starts the day after. |
| `CoalaraCalc.RoundWholeCents` | PF_2020/Coalara_Forecaster/Coalara_Calculatorv2.py:96 | An amount already in whole cents rounds to itself. |
| `CoalaraCalc.Ratchet` | PF_2020/Coalara_Forecaster/Coalara_Calculatorv2.py:95-99 | The issued amount is never negative, and accumulated afterwards is max(previous accumulated, calc_accu). |
| `CoalaraCalc.RunFacts` | PF_2020/Coalara_Forecaster/Coalara_Calculatorv2.py:53-114 | After `k` advancing passes, the row index has moved by 12k and the total is the non-negative sum of the rows' issued amounts. |
| `CoalaraCalc.RunMonotone` | PF_2020/Coalara_Forecaster/Coalara_Calculatorv2.py:99 | The total never decreases from one pass to a later one. |
| `CoalaraCalc.AbatementV1` | PF_2020/Coalara_Forecaster/Coalara_Calculatorv2.py:86-114 | The abatement logic of a v1 period is the step function's issuing branch: net, discount, ratchet, append, row + 12. |
| `CoalaraCalc.CalculatorV1` | PF_2020/Coalara_Forecaster/Coalara_Calculatorv2.py:27-114 | The v1 block stores `num_years` date pairs and ends in the state of the v1 loop over them. |
| `CoalaraCalc.PeriodLoopV1` | PF_2020/Coalara_Forecaster/Coalara_Calculatorv2.py:53-114 | The v1 period loop ends in the state `RunV1` gives. |
| `CoalaraCalc.DeductionTotal` | PF_2020/Coalara_Forecaster/Coalara_Calculatorv2.py:209-216 | The loop over the CEA sheets returns the sum of their numeric column-E values. |
| `CoalaraCalc.NonNumericIgnored` | PF_2020/Coalara_Forecaster/Coalara_Calculatorv2.py:212-216 | Blank cells, and text `float()` rejects, add nothing to the deduction. |
| `CoalaraCalc.DeductionAppend` | PF_2020/Coalara_Forecaster/Coalara_Calculatorv2.py:211-214 | One more sheet adds its numeric value to the deduction. |
| `CoalaraCalc.AbatementV2` | PF_2020/Coalara_Forecaster/Coalara_Calculatorv2.py:207-246 | The abatement logic of a v2 period is the step function's issuing branch, starting from the adjusted stock. |
| `CoalaraCalc.CalculatorV2` | PF_2020/Coalara_Forecaster/Coalara_Calculatorv2.py:148-246 | The v2 block stores `num_years` date pairs and ends in the state of the v2 loop over them. |
| `CoalaraCalc.PeriodLoopV2` | PF_2020/Coalara_Forecaster/Coalara_Calculatorv2.py:173-246 | The v2 period loop ends in the state `RunV2` gives. |
| `CoalaraCalc.StepV1Spec` | PF_2020/Coalara_Forecaster/Coalara_Calculatorv2.py:57-114 | Every v1 period moves the CEA row on by exactly 12. It either appends one row with a non-negative issue and the ratcheted total, or appends nothing and keeps the total. |
| `CoalaraCalc.StepV2Spec` | PF_2020/Coalara_Forecaster/Coalara_Calculatorv2.py:178-246 | The same for every v2 period. |
| `CoalaraCalc.BlankStockSkipsV1` | PF_2020/Coalara_Forecaster/Coalara_Calculatorv2.py:80-84 | A missing D30 reading appends no row and leaves `accumulated_accu` unchanged. |
| `CoalaraCalc.BlankStockSkipsV2` | PF_2020/Coalara_Forecaster/Coalara_Calculatorv2.py:202-206 | The same in the v2 block. |
| `CoalaraCalc.NoCeaSheetSkips` | PF_2020/Coalara_Forecaster/Coalara_Calculatorv2.py:168-191 | With no CEA sheet, `cea_sheets[0]` raises and every v2 period is skipped. |
| `CoalaraCalc.RunV1Spec` | PF_2020/Coalara_Forecaster/Coalara_Calculatorv2.py:53-114 | After `k` v1 periods the CEA row is 2 + 12k, and the total is the sum of the issued amounts, never negative. |
| `CoalaraCalc.StepsAdvanceV1` | PF_2020/Coalara_Forecaster/Coalara_Calculatorv2.py:83-114 | Every v1 pass advances the totals. |
| `CoalaraCalc.RunV1Monotone` | PF_2020/Coalara_Forecaster/Coalara_Calculatorv2.py:95-99 | `accumulated_accu` never decreases across v1 periods. |
| `CoalaraCalc.RunV2Spec` | PF_2020/Coalara_Forecaster/Coalara_Calculatorv2.py:173-246 | After `k` v2 periods the CEA row is 3 + 12k, and the total is the sum of the issued amounts, never negative. |
| `CoalaraCalc.StepsAdvanceV2` | PF_2020/Coalara_Forecaster/Coalara_Calculatorv2.py:205-246 | Every v2 pass advances the totals. |
| `CoalaraCalc.RunV2Monotone` | PF_2020/Coalara_Forecaster/Coalara_Calculatorv2.py:225-229 | `accumulated_accu` never decreases across v2 periods. |
| `CoalaraCalc.AdjustedStockV2` | PF_2020/Coalara_Forecaster/Coalara_Calculatorv2.py:209-223 | A v2 period that writes a row had a CEA sheet and a numeric stock. Its abatement starts from the stock less the numeric column-E values on its row. |
| `CoalaraCalc.FirstPeriodV1` | PF_2020/Coalara_Forecaster/Coalara_Calculatorv2.py:89-91 | The first period's net abatement is 2247.62 whatever the stock, and the model issues 168572 cents. The script's float `round` gives 1685.71. |
| `CoalaraCalc.FirstPeriodV2` | PF_2020/Coalara_Forecaster/Coalara_Calculatorv2.py:220-221 | The same in the v2 block: the model issues 168572 cents, and the script's float `round` gives 1685.71. |
| `CoalaraCalc.FilePairsParse` | PF_2020/Coalara_Forecaster/Coalara_Calculatorv2.py:59-60 | The shipped periods' stored strings always parse back, so no period fails on them. |
| `EpEngine.Norm` | Ep_Forecast_Engine.py:81-85 | `None` maps to "". Any other result has no white space at either end and no ASCII upper-case letter. |
| `EpEngine.NormIdempotent` | Ep_Forecast_Engine.py:81-85 | `_norm` is idempotent. |
| `EpEngine.NormIgnoresCaseAndPadding` | Ep_Forecast_Engine.py:81-85 | Labels that differ only in case and surrounding white space share a key. |
| `EpEngine.IndexColumnAOnly` | Ep_Forecast_Engine.py:96-97 | The label index depends on column A alone. |
| `EpEngine.IndexLabelsInColumnA` | Ep_Forecast_Engine.py:88-101 | The loop maps each non-empty label key to its first row in `1..max_row`. |
| `EpEngine.ColumnBWrites` | Ep_Forecast_Engine.py:141-145 | Writes into column B leave column A, and every row of column B not written, unchanged. |
| `EpEngine.MissingFrom` | Ep_Forecast_Engine.py:67-78 | The result is the first required label, from position `i` on, whose key the index lacks. |
| `EpEngine.RequiredKeys` | Ep_Forecast_Engine.py:40-45 | `_norm` of each of the six labels is its lower-case key. |
| `EpEngine.RequiredKeyIsNorm` | Ep_Forecast_Engine.py:75 | Each required label normalises to its key. |
| `EpEngine.RequiredIndexed` | Ep_Forecast_Engine.py:67-78 | An index passes the check exactly when it holds the key of every required label. |
| `EpEngine.CoerceStrippedValue` | Ep_Forecast_Engine.py:104-111 | Strings are stripped and non-strings are returned unchanged. |
| `EpEngine.CoerceIdempotent` | Ep_Forecast_Engine.py:104-111 | Coercing twice is coercing once. |
| `EpEngine.DatetimeOf` | Ep_Forecast_Engine.py:131 | `datetime(y, m, d)` succeeds exactly for years 1..9999 and an existing day. |
| `EpEngine.FromExcel` | Ep_Forecast_Engine.py:163 | An Excel serial maps to a date, counted from the 1899-12-30 epoch with the 1900 leap-day correction. |
| `EpEngine.FromExcelSerials` | Ep_Forecast_Engine.py:163 | Serial 1 is 1900-01-01. On the same side of the fictitious 1900-02-29, a later whole serial gives a later date. |
| `EpEngine.StartDateOf` | Ep_Forecast_Engine.py:158-165 | A datetime is returned as it is, and an int or float goes through `from_excel`. Anything else raises. |
| `EpEngine.ProjectStartDate` | Ep_Forecast_Engine.py:152-167 | The result is column E of the first row whose column D normalises to "project start date". It raises when there is no such row or when that value is no date. |
| `EpEngine.ProjectStartFromFirstLabel` | Ep_Forecast_Engine.py:155-157 | The date comes from the first labelled row, and no earlier row is labelled. |
| `EpEngine.CheckRequired` | Ep_Forecast_Engine.py:67-78 | The validation loop reports the first required label, in order, that is missing from the index. |
| `EpEngine.ForecastEngine.Open` | Ep_Forecast_Engine.py:48-78 | A missing helper sheet or a missing label raises. Otherwise the engine holds the sheet and its first-occurrence label index. |
| `EpEngine.ForecastEngine.WriteInputsAndGetAccus` | Ep_Forecast_Engine.py:113-150 | An invalid date raises before any write. Otherwise exactly five column-B cells at the label rows are written, nothing else changes, and the date and column B of the "ACCUs Realised" row are returned. |
| `EpEngine.ForecastEngine.LabelRowsDistinct` | Ep_Forecast_Engine.py:134-147 | The "ACCUs Realised" row is none of the five rows written. |
| `EpEngine.ForecastEngine.GetProjectStartDate` | Ep_Forecast_Engine.py:152-167 | The scan returns exactly `ProjectStartDate`. |
| `EpEngine.NRps` | Ep_Forecast_Engine.py:204-217 | An explicit count wins. Otherwise the count is ceil(months / rp_length), where months = 12·Δyear + Δmonth to start + 25 years. A start-date error propagates. |
| `EpEngine.CeilingBounds` | Ep_Forecast_Engine.py:215-217 | Floor division rounded up on a remainder is the ceiling: `(c−1)·L < m <= c·L`. |
| `EpEngine.NRpsExamples` | Ep_Forecast_Engine.py:212-217 | Monthly RPs count the months left (300 from the start month), and with annual RPs a part year counts as one RP (299 months give 25). |
| `Headers.HeaderMapSpec` | add_forecast_to_inventory.py:64-71 | The header map holds exactly the non-blank keys of columns `1..k`, each mapped to the first column carrying it. |
| `Headers.HeaderMapPoints` | add_forecast_to_inventory.py:66-70 | Each mapped key points at a header cell with that key. |
| `Headers.HeaderMapHas` | add_forecast_to_inventory.py:66-70 | Every non-blank header of the row is in the map. |
| `Headers.BuildHeaderMap` | add_forecast_to_inventory.py:64-71 | The loop returns exactly the header map of the row. |
| `Headers.PutHeadersSpec` | add_forecast_to_inventory.py:78-79 | Writing headers from `col0` fills those columns of row 1 in order and leaves every other cell alone. |
| `Headers.EnsuredHeadersMapped` | add_forecast_to_inventory.py:74-89 | Afterwards every required header with a non-blank key is mapped, each mapped key points at a header with that key, and no row is added. |
| `Headers.EnsuredHeadersOnEmptyRow` | add_forecast_to_inventory.py:77-80 | On a header row with no header, the required headers go into columns `1..n` in order and nothing else changes. |
| `Headers.EnsuredHeadersDataRows` | add_forecast_to_inventory.py:74-89 | `_ensure_headers` writes only into row 1. |
| `Headers.MissingWereMissing` | add_forecast_to_inventory.py:84-85 | Every header appended had a key that the row lacked. |
| `Headers.AppendKeepsCells` | add_forecast_to_inventory.py:82-89 | The appending branch leaves every existing header cell, and every other row, untouched. |
| `Headers.AppendWritesMissing` | add_forecast_to_inventory.py:86-88 | The missing headers go, in order, into the successive columns after `max_column`. |
| `Headers.AppendWidth` | add_forecast_to_inventory.py:82-88 | The sheet widens by exactly one column per missing header. |
| `Headers.AppendKeepsMapped` | add_forecast_to_inventory.py:83-87 | A header the row already had stays mapped to its column. |
| `Headers.FillHeaderRow` | add_forecast_to_inventory.py:78-79 | The fill loop writes the headers into columns `1..n`. |
| `Headers.AppendMissingHeaders` | add_forecast_to_inventory.py:82-89 | The appending loop ends with the sheet and the map of the appending pass. |
| `Headers.EnsureHeaders` | add_forecast_to_inventory.py:74-89 | The method leaves the sheet and returns the map that `EnsuredHeaders` specifies. |
| `Ledger.FindRowSpec` | add_forecast_to_inventory.py:100-113 | It raises exactly when the column is absent, gives `None` for a blank target, and otherwise gives the first row ≥ 2 whose stripped value is the target, or `None` when there is none. |
| `Ledger.FindRowByValue` | add_forecast_to_inventory.py:100-113 | The scan returns exactly `FindRow`. |
| `Ledger.WriteFieldSpec` | add_forecast_to_inventory.py:133-137 | `_write` does nothing for an absent header. Otherwise it sets exactly the one cell under it. |
| `Ledger.Write` | add_forecast_to_inventory.py:133-137 | The method leaves the sheet as `WriteField` specifies. |
| `Ledger.ApplyWritesLastWins` | add_forecast_to_inventory.py:185-213 | Of the writes into one row, the last one landing in a column decides that cell. |
| `Ledger.ApplyWritesOtherRows` | add_forecast_to_inventory.py:182-213 | The writes of one appended row touch no other row. |
| `Ledger.PortfolioWritesOk` | add_forecast_to_inventory.py:185-188 | The portfolio writes raise exactly when a portfolio field is missing. |
| `Ledger.PortfolioWritesContents` | add_forecast_to_inventory.py:185-196 | Write `j` carries field `j`'s value from the project's row, under its own name or, for "Project ID", under "Project Number". |
| `Ledger.PortfolioWritesFirstMissing` | add_forecast_to_inventory.py:185-188 | The error names the first missing portfolio field. |
| `Ledger.ForecastWritesSpec` | add_forecast_to_inventory.py:199-201 | Write `j` carries the row's value in forecast column `j`, under its inventory name. |
| `Ledger.RowWritesSpec` | add_forecast_to_inventory.py:184-213 | A row is written exactly when the portfolio has every field and the RP end parses. It then gets the portfolio, forecast and four derived writes, and a bad RP end raises with the row number. |
| `Ledger.EnsuredHeadersDistinct` | add_forecast_to_inventory.py:171 | After `_ensure_headers`, the four derived headers are mapped to four different columns. |
| `Ledger.RowDerivedCells` | add_forecast_to_inventory.py:204-213 | A written row holds RP end + 2 days, RP end + 92 days, "Forecasted" and the run date in the four derived columns. |
| `Ledger.RpRowsSpec` | add_forecast_to_inventory.py:177-180 | The rows appended for are, in increasing order, exactly the forecast rows with a non-blank RP. |
| `Ledger.AppendedOk` | add_forecast_to_inventory.py:177-215 | The append goes through exactly when every forecast row with an RP can be written. |
| `Ledger.AppendedShape` | add_forecast_to_inventory.py:177-215 | One row is appended per forecast row with an RP, at `max_row + 1`. `rows_written` counts them and existing rows are never modified. |
| `Ledger.AppendedErrStays` | add_forecast_to_inventory.py:207 | Once the append raises, the error is final. |
| `Ledger.FirstMissingForecast` | add_forecast_to_inventory.py:152-154 | The result is `None` exactly when every forecast column is mapped. Otherwise it is the first missing one. |
| `Ledger.CheckForecast` | add_forecast_to_inventory.py:147-154 | A passing check has a non-blank ERF and every forecast column mapped. |
| `Ledger.FindProject` | add_forecast_to_inventory.py:159-166 | The project row found is a data row of the portfolio. |
| `Ledger.Prepare` | add_forecast_to_inventory.py:143-166 | Passing checks give a non-blank ERF and a mapped forecast. |
| `Ledger.RunChecks` | add_forecast_to_inventory.py:147-162 | A blank F1 raises first, then the first missing forecast column, then a portfolio without Registry ID. |
| `Ledger.FindProjectSpec` | add_forecast_to_inventory.py:161-166 | The portfolio row is the first data row whose Registry ID is the ERF. With no such row the run raises. |
| `Ledger.UpdateAppends` | add_forecast_to_inventory.py:171-215 | The summary counts one row per forecast row with an RP, the sheet grows by that many rows, and rows below the header are unchanged. |
| `Ledger.RunAppends` | add_forecast_to_inventory.py:140-235 | A successful run appends one row per forecast row with an RP and nothing else, and the summary records the run date, the ERF and that count. |
| `Ledger.RunRowCells` | add_forecast_to_inventory.py:177-213 | The `t`-th appended row carries the derived values of the `t`-th forecast row with an RP. |
| `Ledger.FindMissingForecast` | add_forecast_to_inventory.py:152-154 | The loop returns exactly `FirstMissingForecast`. |
| `Ledger.ReadForecast` | add_forecast_to_inventory.py:144-154 | The reads of the forecast sheet return exactly `CheckForecast`. |
| `Ledger.ReadPortfolio` | add_forecast_to_inventory.py:157-166 | The reads of the portfolio sheet return exactly `FindProject`. |
| `Ledger.ReadInputs` | add_forecast_to_inventory.py:143-166 | Both sheet reads together return exactly `Prepare`. |
| `Ledger.AppendStep` | add_forecast_to_inventory.py:177-215 | One iteration of the row loop moves the sheet and the count as `Appended` specifies. |
| `Ledger.AppendForecastRows` | add_forecast_to_inventory.py:174-215 | The row loop leaves the sheet and `rows_written` as `Appended` specifies. |
| `Ledger.UpdateInventory` | add_forecast_to_inventory.py:169-215 | `_ensure_headers` and then the row loop give `Update`'s sheet and summary, or its error. |
| `Ledger.AddForecastToInventory` | add_forecast_to_inventory.py:140-235 | The whole run leaves the inventory as `Run` says and returns its summary, or its error. |
| `Inventory.Norm` | add_forecast_to_inventory.py:56-57 | `None` maps to "", and any result has no white space at either end. |
| `Inventory.LowerNorm` | add_forecast_to_inventory.py:60-61 | `_lower_norm` is blank exactly when `_norm` is. |
| `Inventory.LowerNormIsLower` | add_forecast_to_inventory.py:60-61 | `_lower_norm` leaves no upper-case letter. |
| `Inventory.NormIdempotent` | add_forecast_to_inventory.py:56-57 | `_norm` is idempotent. |
| `Inventory.LowerNormIdempotent` | add_forecast_to_inventory.py:60-61 | `_lower_norm` is idempotent. |
| `Inventory.ToDatetime` | add_forecast_to_inventory.py:116-130 | A date parsed from text has a year in 1..9999. |
| `Inventory.ToDatetimeValues` | add_forecast_to_inventory.py:116-122 | Datetimes and dates are kept, while `None`, numbers and booleans give `None`. |
| `Inventory.ToDatetimeIso` | add_forecast_to_inventory.py:123-127 | Padded ISO text parses as its date. |
| `Inventory.ToDatetimeDayFirst` | add_forecast_to_inventory.py:125-129 | `dd/mm/yyyy` text parses day-first, even when a month-first reading exists. |
| `Inventory.RegistryKey` | add_forecast_to_inventory.py:161 | The key of "Registry ID" is "registry id". |
| `Inventory.DerivedKeys` | add_forecast_to_inventory.py:209-213 | The four derived headers have non-blank, pairwise different keys. |
| `Inventory.EnsuredDerivedDistinct` | add_forecast_to_inventory.py:22-30 | With the required inventory headers, `_ensure_headers` maps the four derived headers to four different columns. |
| `Inventory.ScriptRun` | add_forecast_to_inventory.py:140-215 | With the script's own conversions, a successful run appends one row per forecast row with an RP and keeps the old rows. Each new row gets RP end + 2 and + 92 days, "Forecasted" and the run date. |
| `CleanExport.RowIsEmpty` | helpers/clean_mi_export.py:12-20 | The result is true exactly when every cell of the row is `None` or "". |
| `CleanExport.KeptImages` | helpers/clean_mi_export.py:32-48 | Only qualifying images are kept, and none is added. |
| `CleanExport.KeptImagesComplete` | helpers/clean_mi_export.py:36-46 | An image with no anchor, with a broken anchor, or anchored below the threshold is kept. |
| `CleanExport.KeptImagesAll` | helpers/clean_mi_export.py:32-48 | Images that all qualify are all kept, in order. |
| `CleanExport.KeptImagesIdempotent` | helpers/clean_mi_export.py:23-48 | Stripping twice with the same bound is stripping once. |
| `CleanExport.StripImagesOnRows` | helpers/clean_mi_export.py:23-48 | Only the qualifying images remain, and the cells are untouched. |
| `CleanExport.HeaderRowFrom` | helpers/clean_mi_export.py:100-106 | The result is the first row whose column A is a string stripping to "Name", or `None` when there is none. |
| `CleanExport.FindHeaderRow` | helpers/clean_mi_export.py:101-106 | The scan returns exactly `HeaderRow`. |
| `CleanExport.HeaderAtTop` | helpers/clean_mi_export.py:109 | A "Name" header in row 1 is the header row. |
| `CleanExport.SelectSheet` | helpers/clean_mi_export.py:85-90 | No name selects the active sheet. An unknown name raises KeyError with its message. |
| `CleanExport.CleanSheet` | helpers/clean_mi_export.py:100-111 | A header row `r > 1` strips the images on rows `1..r−1` and deletes those rows, so the header becomes row 1, with `max_row` reduced by `r−1` and `max_column` kept. Otherwise the sheet is unchanged. |
| `CleanExport.CleanMasterInventory` | helpers/clean_mi_export.py:128-140 | The first two rows are dropped exactly when there are at least two rows and both are entirely empty. Otherwise the frame is an unchanged copy. |
| `MergeUtils.Collapse` | PF_2020/ancillary/sch4_merge_utils.py:48 | Every white-space run becomes one space. |
| `MergeUtils.Norm` | PF_2020/ancillary/sch4_merge_utils.py:46-48 | The result is single-spaced, with no white space at its ends. |
| `MergeUtils.NormIdempotent` | PF_2020/ancillary/sch4_merge_utils.py:46-48 | `_norm` is idempotent. |
| `MergeUtils.NormaliseHeaders` | PF_2020/ancillary/sch4_merge_utils.py:51-69 | The labels keep their number and order, each normalised and renamed. |
| `MergeUtils.NormaliseHeaderSpec` | PF_2020/ancillary/sch4_merge_utils.py:54-68 | The double-space variants never match. Only the single-space "litter and deadwood" header becomes the debris header. |
| `MergeUtils.LastDay` | PF_2020/ancillary/sch4_merge_utils.py:30-43 | `LAST_DAY` is a real day of its month, with February 28. |
| `MergeUtils.MonthEnd` | PF_2020/ancillary/sch4_merge_utils.py:96-100 | The key keeps the year and the month. |
| `MergeUtils.MonthEndSpec` | PF_2020/ancillary/sch4_merge_utils.py:96-100 | The key is the month's last day, except in a leap-year February, where it is the 28th. |
| `MergeUtils.SelectMetrics` | PF_2020/ancillary/sch4_merge_utils.py:72-80 | The result is exactly the five METRIC_COLS in order, with NaN for an absent column. |
| `MergeUtils.DropAllNaN` | PF_2020/ancillary/sch4_merge_utils.py:141-143 | Exactly the rows with at least one metric remain, and the result is a subsequence of the input (same order). |
| `MergeUtils.KeepLast` | PF_2020/ancillary/sch4_merge_utils.py:145-146 | The kept rows carry exactly the input's keys, and they are a subsequence of the input (same order). |
| `MergeUtils.KeepLastUnique` | PF_2020/ancillary/sch4_merge_utils.py:145-146 | After de-duplication no two rows share a key. |
| `MergeUtils.KeepLastIsLast` | PF_2020/ancillary/sch4_merge_utils.py:146 | For each key, the row kept is the last row with it. |
| `MergeUtils.KeepLastOnlyLast` | PF_2020/ancillary/sch4_merge_utils.py:146 | Every kept row is the last of the rows with its key. |
| `MergeUtils.PrepareSide` | PF_2020/ancillary/sch4_merge_utils.py:115-147 | It raises without a Date column. Otherwise it keys the rows, falling back to the raw date text, then drops all-NaN rows and keeps the last row per key. |
| `MergeUtils.PrepareSideRows` | PF_2020/ancillary/sch4_merge_utils.py:125-146 | Kept rows have distinct keys and at least one metric. Each is the last of its key among the rows with a metric. |
| `MergeUtils.JoinCoversKeys` | PF_2020/ancillary/sch4_merge_utils.py:157 | Every key of either side has a row in the outer join. |
| `MergeUtils.JoinKeysFromSides` | PF_2020/ancillary/sch4_merge_utils.py:157 | Every join row carries a key of one side. |
| `MergeUtils.JoinDistinct` | PF_2020/ancillary/sch4_merge_utils.py:157 | When neither side repeats a key, the join has one row per key. |
| `MergeUtils.JoinRowSpec` | PF_2020/ancillary/sch4_merge_utils.py:157-160 | A key Project lacks gets NaN for Project's metrics. A shared key gets Project's metrics and Baseline's date when present. |
| `MergeUtils.SortRowsSorted` | PF_2020/ancillary/sch4_merge_utils.py:161 | The rows are ordered by parsed date, with undated rows last, and the multiset of rows is kept. |
| `MergeUtils.MergeTwoFrames` | PF_2020/ancillary/sch4_merge_utils.py:150-173 | The columns are Date, then label_a's metrics in METRIC_COLS order, then label_b's. |
| `MergeUtils.MergeTwoFramesSpec` | PF_2020/ancillary/sch4_merge_utils.py:157-169 | The merged rows are the outer join in date order, each written as the key's Date text and then the kept metrics of each side. |
| `MergeUtils.DistinctTagsKeepAll` | PF_2020/ancillary/sch4_merge_utils.py:166-167 | With distinct labels, all five metrics of each side are kept, Baseline's first. |
| `MergeUtils.SameTagKeepsOnlyDate` | PF_2020/ancillary/sch4_merge_utils.py:157-169 | With one label on both sides, pandas suffixes every metric column, so only Date remains. |
| `MergeUtils.DefaultTagsKeepAll` | PF_2020/ancillary/sch4_merge_utils.py:181-182 | The default labels "Baseline" and "Project" keep every metric column. |
| `MergeUtils.MergedRowAll` | PF_2020/ancillary/sch4_merge_utils.py:164-169 | With every metric kept, a merged row is the Date text, Baseline's five metrics, then Project's five. |
| `CombineCsvs.Sanitize` | ancillary/combine_csvs.py:29-32 | Each of `: \ / ? * [ ]` becomes `_` and the name is cut to 31 characters. The result has none of them and length min(n, 31). |
| `CombineCsvs.SanitizeKeepsSafe` | ancillary/combine_csvs.py:29-32 | A short name without forbidden characters is kept. |
| `CombineCsvs.SanitizeIdempotent` | ancillary/combine_csvs.py:29-32 | Sanitising twice is sanitising once. |
| `CombineCsvs.SliceTo` | ancillary/combine_csvs.py:41 | Python's `s[:j]` is a prefix, of length `j` when `0 <= j <= len(s)`. |
| `CombineCsvs.CandidateShape` | ancillary/combine_csvs.py:40-41 | A candidate is a prefix of the base, then `_`, then the counter. |
| `CombineCsvs.CandidateLength` | ancillary/combine_csvs.py:41 | A base of at most 31 characters gives a candidate of at most 31, and it is `base_k` when that fits. |
| `CombineCsvs.CandidateInjective` | ancillary/combine_csvs.py:40-42 | Different counters give different candidates. |
| `CombineCsvs.SheetNames.MakeUnique` | ancillary/combine_csvs.py:35-44 | The name is returned unchanged when it is free, and otherwise the first free `base_k`. The result was not in `existing` before and is added to it. |
| `CombineCsvs.TriedMeasure` | ancillary/combine_csvs.py:39-42 | Each used candidate tried leaves one fewer used name, so the loop terminates on a finite `existing`. |
| `CombineCsvs.LowerMap` | ancillary/combine_csvs.py:48 | The keys are exactly the lower-cased column names. |
| `CombineCsvs.LowerMapLast` | ancillary/combine_csvs.py:48 | Each key maps to the last column with that lower-case form. |
| `CombineCsvs.FindColumnSpec` | ancillary/combine_csvs.py:47-49 | The match ignores case. The result is `None` exactly when no column matches, and otherwise the last matching column. |
| `VenvWizard.PkgNamePrefix` | venv_setup_wizard.py:95-101 | `_pkg_name` is a lower-cased prefix of the stripped spec. |
| `VenvWizard.PkgNameFirstSeparator` | venv_setup_wizard.py:97-100 | The first listed separator found at a positive index decides, wherever it occurs in the text. |
| `VenvWizard.PkgNameNoSeparator` | venv_setup_wizard.py:101 | With no separator at a positive index, the whole stripped spec is the name. |
| `VenvWizard.PkgNameListOrder` | venv_setup_wizard.py:97-100 | `"a<b==c"` is cut at `==`, not at the earlier `<`. |
| `VenvWizard.NormalizeMinor` | venv_setup_wizard.py:104-117 | None or blank maps to None. "a.b[.c]" maps to "a.b", digit runs to "d.rest", a single digit d to "d.0", and anything else to the stripped input. |
| `VenvWizard.NormalizeMinorForm` | venv_setup_wizard.py:110-116 | Numeric inputs normalise to the "a.b" form. |
| `VenvWizard.NormalizeMinorIdempotent` | venv_setup_wizard.py:104-117 | Normalising an already normalised version changes nothing. |
| `VenvWizard.NameMapLast` | venv_setup_wizard.py:287 | Each name maps to the last spec with that name. |
| `VenvWizard.KeepPartition` | venv_setup_wizard.py:306-307 | The two filters together hold every spec exactly as often as the list does. |
| `VenvWizard.WithGeopandasStrategy` | venv_setup_wizard.py:286-297 | The list is unchanged without geopandas. Otherwise the result is `GeoOrder`. |
| `VenvWizard.PrereqSpecs` | venv_setup_wizard.py:291-293 | The loop collects the user's spec for each stack package, or the default. |
| `VenvWizard.OtherSpecs` | venv_setup_wizard.py:295-296 | The other specs are the non-geo specs, in order. |
| `VenvWizard.DefaultSpecNames` | venv_setup_wizard.py:65-69 | The default specs name their own packages. |
| `VenvWizard.GeoOrderHead` | venv_setup_wizard.py:290-297 | shapely, pyproj, pyogrio (the user's spec or the default), then geopandas, then the others in their order. |
| `VenvWizard.GeoOrderRest` | venv_setup_wizard.py:296-297 | Past the head, the order holds the specs naming no geospatial package. |
| `VenvWizard.InstallSplit` | venv_setup_wizard.py:303-307 | The geo segment and the rest are order-preserving filters that together cover every spec. |
| `VenvWizard.InstallPlanWithGeopandas` | venv_setup_wizard.py:300-311 | With geopandas there is one wheels-only call for the four geo specs, then one call for the rest. |
| `OnlyBinary.SortedSetSpec` | venv_setup_wizard.py:279 | `sorted(set(xs))` is strictly sorted and holds exactly the names of `xs`. |
| `OnlyBinary.SortedUnique` | venv_setup_wizard.py:279 | Two strictly sorted lists with the same names are equal. |
| `OnlyBinary.SplitJoin` | venv_setup_wizard.py:279 | Joining comma-free names and splitting on commas gives them back. |
| `OnlyBinary.CurrentNames` | venv_setup_wizard.py:278-279 | The current names come from the variable stripped of `, ` at both ends and split on commas, or are empty. |
| `OnlyBinary.PipEnv` | venv_setup_wizard.py:277-280 | With no wheel-only names the env is unchanged. Otherwise `PIP_ONLY_BINARY` becomes the joined sorted set, and nothing else changes. |
| `OnlyBinary.MergedNames` | venv_setup_wizard.py:277-280 | The merged value splits back into the sorted, de-duplicated union of the existing and requested names. |

## Left out

- Excel and workbook I/O is not modelled:
  - xlwings automation (opening books, `CalculateFullRebuild`, number formats, sheet activation);
  - openpyxl `load_workbook`/`save`;
  - file-existence checks and the CSV and Excel writers, including the 6-decimal CSV rounding of the Sch4 forecaster.

  The values that recalculated cells yield are oracle parameters.
- The clock is not modelled. `datetime.now()` (the inventory run date, the file-name stamps) is a parameter.
- Workbook and sheet selection is left out. This covers `_find_sheet_by_keywords`, the first-sheet fallback of `add_forecast_to_inventory`, and the lookup of the Summary, CEA01 and Calculations sheets. The sheets arrive already chosen, together with the portfolio sheet's title.
- A sheet with `max_row` of 0 is not modelled. The model's sheets always have `max_row` and `max_column` of at least 1, so the empty-sheet guards in `clean_mi_export` and `_row_is_empty` are not represented.
- Floating point is not modelled:
  - Stock values are `real`.
  - `CoalaraCalc` rounds exact reals to integer cents, with halves rounded up. Python's `round(x, 2)` acts on the binary value of `x`, so the two can differ by one cent even without a tie.
  - `float(v)` on text is modelled by a decimal parser. After the surrounding white space is stripped, it accepts an optional `+` or `-` followed by `digits`, `digits.`, `.digits` or `digits.digits`. Exponents, `inf`, `nan` and underscores are not accepted.
- `CoalaraCalc.FirstPeriodV1`, `CoalaraCalc.FirstPeriodV2`: on the script's fixed first period the model issues 168572 cents. The binary product `2247.62 * 0.75` lies just below 1685.715, so the script's `round` gives 1685.71.
- `pd.to_datetime` with `dayfirst` is an abstract parse on a key's text, applied cell by cell. It cannot express that pandas 2 infers one format from the first non-null element and applies that format to the whole column. `pd.to_numeric` is an abstract conversion. The merge is modelled on the columns and rows it produces, not on pandas' index machinery.
- `MergeUtils.PrepareSide`: the error text for a label that names two columns is the model's own, not pandas' message. Two pandas behaviours are also left out: from pandas 2.2 an outer merge sorts the keys lexicographically, and merging a datetime64 key with an object key raises.
- `strptime` is modelled only for the fixed numeric formats the scripts use. Their separators and 1-2 digit fields are modelled, but locale and other directives are not.
- `EpEngine.FromExcel`, `Cells.DateTime`: the time of day is not modelled. A fractional serial and a datetime cell with a time both lose it; only the date is kept, which is all that `NRps` uses (year and month).
- Case conversion (`lower`/`upper`) covers ASCII letters only. Digit tests (`str.isdigit`) are ASCII too, while Python also accepts other Unicode digits.
- The Tk user interfaces (`EP_Forecast_Runner.py`, `add_to_inv_UI.py`) are not modelled. `EpEngine.NRps` states its ceiling bound for positive RP lengths, the ones the runner passes. A zero length raises, as in the code.
- The venv bootstrap side effects are not modelled: subprocess calls, winget/choco, downloads, `os.execv`, the index and trusted-host pip flags, and the sha256 `_signature`.
- Two script-level I/O faults are outside the model because they occur after the modelled loops: the invalid open mode `'vw'` and the undefined `csv_out` name in the v1 block of `Coalara_Calculatorv2.py`.
- The monthly-forecast scripts for Dogwood and Blackwood, the older Coalara runners and the CSV-combining scripts that run at import are not modelled. Their arithmetic is the stock difference already covered by the forecasters.
- `merge_workbooks` is not modelled beyond `_merge_two_frames`. Its sheet pairing and file writing are left out.
- `Dates.AddYears`: the date type allows any year, while Python's `date` raises outside 1..9999. The model enforces that range only where the code builds a `datetime` from parts (`EpEngine.DatetimeOf`) and where `strptime` parses four-digit years.
