# Vehicle expense tracker — a Dafny model of its bookkeeping core

The tracker (`arac_uygulamasi.py`) keeps one spreadsheet of vehicle expenses:
- every row has a date, an odometer reading (KM Sayacı), a category (Masraf Türü), an amount (Tutar), a description, an installment count (Taksit Sayısı), litres and a fill type (Dolum Türü);
- fuel rows have the category "Yakıt";
- a fuel row is either a full-tank fill ("Full Dolum") or a partial one ("Kısmi Dolum").

This project models the logic the app runs on that sheet. The model covers:
- **Entry forms** (module `Entry`): the checks a new fuel purchase or other expense must pass, and the in-memory sheet the accepted row is appended to. This is a class with `modifies` frames.
- **Loading** (module `Loading`): the header check, the decimal-comma rewrite of the numeric cells, their coercion to numbers with 0 for unreadable cells, the clamp of the installment count to at least 1, and the dropping of undated rows. It also covers the two-decimal, decimal-comma form the save step writes amounts in, and its round trip through the load step.
- **Fuel analysis tab** (modules `FuelSeries`, `Overview`, `Trips`, `Monthly`, `FuelTab`):
  - the fuel rows sorted by odometer;
  - the all-time overview;
  - the full-to-full trip table, whose loop is a method proved against a specification function;
  - the monthly table;
  - how these tables agree with each other.
- **General expense tab** (module `Installments`):
  - the expansion of every expense into monthly installments, written as the nested loops of the source;
  - the totals of the payments;
  - the payments that fall in the current month, including a discrepancy in how the code builds that window (see Findings).
- **Data management tab** (module `Editing`): the filter by category, date range and description, and the save step. The save step merges the rows outside the filter with the edited rows and cleans the result.

Amounts and litres are exact `real`s, odometer readings are `int`s and text is `string`. The date parser and the clock are parameters. The Google Sheets connection and the Streamlit interface are not modelled.

## Model

| member | source | states |
|---|---|---|
| Records.PerKm | arac_uygulamasi.py:316 | money per km over a positive distance: the rate times the distance gives back the money |
| Records.Per100Km | arac_uygulamasi.py:315 | litres per 100 km over a positive distance: the rate times the distance is 100 times the litres |
| Records.MaxKm | arac_uygulamasi.py:223 | the highest odometer reading: no row exceeds it and some row has it |
| Records.MinKm | arac_uygulamasi.py:369 | the lowest odometer reading: no row undercuts it and some row has it |
| FuelSeries.FuelOnly | arac_uygulamasi.py:298 | only fuel rows are kept, and each fuel row of the sheet is kept as often as it occurs |
| FuelSeries.InsertSorted | arac_uygulamasi.py:298 | inserting a row into a km-sorted list keeps it sorted |
| FuelSeries.SortByKm | arac_uygulamasi.py:298 | the result is sorted by odometer reading and is a permutation of the input |
| FuelSeries.Series | arac_uygulamasi.py:298 | the analysed series is sorted by km, holds only fuel rows, and holds every fuel row of the sheet exactly as often |
| Overview.AllTime | arac_uygulamasi.py:300-322 | no overview below two fuel rows; distance is last minus first reading; litres and money leave out the first fill; total spend includes it; averages hold only when distance and litres are both positive, and are 0 otherwise |
| Overview.AllTimeIsSpan | arac_uygulamasi.py:298-307 | on the km-sorted series the overview distance is highest minus lowest reading, never negative |
| Trips.FullIndices | arac_uygulamasi.py:328 | the positions of full fills: in range, each a full fill, strictly ascending |
| Trips.FullIndicesComplete | arac_uygulamasi.py:328 | every full fill of the series is listed |
| Trips.Pairs | arac_uygulamasi.py:334-336 | one stretch per consecutive pair of positions, k - 1 of them for k positions, in order |
| Trips.Segments | arac_uygulamasi.py:334-338 | every full-to-full stretch lies inside the series and has its start before its end |
| Trips.Measure | arac_uygulamasi.py:338-358 | an inclusive slice yields one trip exactly when its last reading is above its first; the trip runs from the first reading to the last, consumes the litres and money of the rows after the first, and its averages are those totals over its distance |
| Trips.TripOf | arac_uygulamasi.py:338-345 | a stretch yields at most one trip, which starts at the stretch's first full fill and ends at its second |
| Trips.Reports | arac_uygulamasi.py:334-358 | a run of stretches yields at most one trip per stretch |
| Trips.TripReports | arac_uygulamasi.py:329-358 | the trip table is empty below two full fills, and every trip in it moved forward with averages that are its totals over its distance |
| Trips.AnalyseTrips | arac_uygulamasi.py:329-358 | the loop over consecutive full-fill pairs builds exactly the trip table `TripReports` |
| Trips.MeasureTrip | arac_uygulamasi.py:338-358 | one loop body: the report of the inclusive slice between two positions |
| Trips.TripStep | arac_uygulamasi.py:334-358 | one turn of the loop appends the report of the i-th stretch to the reports of the earlier ones |
| Trips.TripsComplete | arac_uygulamasi.py:331-334 | the loop runs once per stretch, and after the last turn the table is complete |
| Trips.ReportsWellFormed | arac_uygulamasi.py:340-358 | every reported trip has start km below end km, distance equal to their difference, and averages that are its litres and money over that distance |
| Trips.NoTripsWithoutTwoFullFills | arac_uygulamasi.py:331-332 | fewer than two full fills, or fewer than two fuel rows, give an empty trip table |
| Trips.TripOfIs | arac_uygulamasi.py:338-358 | a stretch yields a trip exactly when the odometer advanced; the trip sums litres and money over the slice without its first row |
| Trips.SegmentBoundaries | arac_uygulamasi.py:334-338 | both ends of a stretch are full fills, no full fill lies strictly inside it, and each stretch starts where the previous one ended |
| Trips.SegmentsSpan | arac_uygulamasi.py:328-338 | no full fill lies before the first stretch or after the last one |
| Trips.ReportsCount | arac_uygulamasi.py:347 | a run of stretches yields at most one trip each, and one for every stretch exactly when every stretch advanced the odometer |
| Trips.TripCount | arac_uygulamasi.py:331-347 | k full fills give k - 1 stretches and at most k - 1 trips, exactly k - 1 when none is dropped |
| Trips.TripConservation | arac_uygulamasi.py:334-345 | when no trip is dropped, the trips' litres (or money) add up to those of the rows after the first full fill up to and including the last |
| Trips.TripDistanceSpan | arac_uygulamasi.py:340-342 | on a km-sorted series the trips' distances add up to the last full fill's reading minus the first's |
| Trips.TripsMatchAllTime | arac_uygulamasi.py:300-345 | on a sorted series that starts and ends with a full fill and drops no trip, the trips cover the overview's distance and use its litres and money |
| Trips.WorkedExample | arac_uygulamasi.py:334-358 | full fill at 1000 km, partial fill at 1400 km and full fill at 1800 km give one trip of 800 km, 45 L and 2500 TL, which is 5.625 L/100km and 3.125 TL/km |
| Trips.MeasureNonNeg | arac_uygulamasi.py:343-354 | a slice with no negative litres (or amounts) reports non-negative litres and L/100km (or money and TL/km) |
| Trips.ReportsNonNeg | arac_uygulamasi.py:334-358 | over a series with no negative litres (or amounts), every trip of a run of stretches has non-negative litres and L/100km (or money and TL/km) |
| Trips.TripsNonNeg | arac_uygulamasi.py:329-358 | a sheet without negative litres gives no trip with negative litres or L/100km; likewise for money and TL/km |
| Monthly.Among | arac_uygulamasi.py:366-372 | every kept row is dated in one of the chosen months |
| Monthly.AmongContents | arac_uygulamasi.py:366-372 | the rows of the chosen months are kept exactly as often as they occur, the others not at all |
| Monthly.InMonth | arac_uygulamasi.py:372-375 | the group of one month holds only rows dated in that month |
| Monthly.Summarise | arac_uygulamasi.py:368-385 | a month's spend and litres are the sums of its rows; its distance is the largest difference between two of its readings; the rates are the rate functions of its totals when that distance is positive, and 0 otherwise |
| Monthly.Rollup | arac_uygulamasi.py:365-385 | the table has a row for exactly the months that have fuel rows |
| Monthly.RollupAt | arac_uygulamasi.py:372-375 | each month's row summarises that month's non-empty group of rows |
| Monthly.RollupPartition | arac_uygulamasi.py:372-375 | over the table's months, listed once each, the monthly spend (or litres) adds up to that of the whole series |
| Monthly.RollupOneMonth | arac_uygulamasi.py:365-385 | a series within one month gives one row that summarises all of it |
| Monthly.TwoFillsOneMonth | arac_uygulamasi.py:368-375 | two fills in one month give one row whose spend is their sum and whose distance is the difference of their readings |
| Installments.AddMonths | arac_uygulamasi.py:411 | n months later, the same day, a valid month |
| Installments.AddMonthsTwice | arac_uygulamasi.py:411 | adding months in two steps is adding them at once |
| Installments.AddNoMonths | arac_uygulamasi.py:410-411 | the first installment (i = 0) falls on the expense's own date |
| Installments.Installment | arac_uygulamasi.py:409-416 | the i-th installment has the expense's category, the amount over the count, the same day and a month i months later |
| Installments.Payments | arac_uygulamasi.py:409-416 | the first k installments: k payments, each in the row's category, each the amount over the count, the i-th dated i months after the row |
| Installments.Schedule | arac_uygulamasi.py:408-416 | a row yields as many payments as its count when it is positive and none otherwise (0 is skipped, a negative count gives an empty range) |
| Installments.ExpandInstallments | arac_uygulamasi.py:406-416 | the nested loops build exactly the payment table `Expansion` of the rows, row after row |
| Installments.Expansion | arac_uygulamasi.py:406-416 | the payment table: the schedules of the rows, row after row (its contents are stated by ExpandInstallments, ExpansionTotal and DueOfExpansion) |
| Installments.ExpansionDates | arac_uygulamasi.py:406-416 | rows with valid dates give payments with valid dates |
| Installments.ScheduleTotal | arac_uygulamasi.py:409-416 | the installments of a row with count at least 1 add up to its amount |
| Installments.ExpansionTotal | arac_uygulamasi.py:406-430 | when every count is at least 1, the payment table adds up to the all-time total spend |
| Installments.DueOfPayments | arac_uygulamasi.py:409-416 | in any month at most one installment of a row falls due: the one at that month's offset, if the offset is in range |
| Installments.PaymentsInMonth | arac_uygulamasi.py:409-416 | among the first k installments, a month receives one share when its offset is in 0..k-1 and nothing otherwise |
| Installments.ScheduleInMonth | arac_uygulamasi.py:409-416 | a row's payments in a month are one share in the c months from its date and nothing in the others |
| Installments.Due | arac_uygulamasi.py:425-428 | the payments kept for a month are all dated in that month |
| Installments.ScheduleShare | arac_uygulamasi.py:408-416 | whatever its count, a row pays its share in each of its c months and nothing in any other month |
| Installments.DueOfExpansion | arac_uygulamasi.py:406-428 | the payments due in a month over the whole table add up to the sum of every row's share in that month |
| Installments.RowsOf | arac_uygulamasi.py:441 | the rows of a category all have that category |
| Installments.RowsOfContents | arac_uygulamasi.py:441 | the rows of a category are exactly the table's rows of that category, each as often as in the table |
| Installments.ScheduleCategoryShare | arac_uygulamasi.py:446-450 | a row's payments in a month count toward its own category only |
| Installments.CategoryDueOfExpansion | arac_uygulamasi.py:446-450 | a category's payments due in a month add up to the shares of that category's rows in that month |
| Installments.Window | arac_uygulamasi.py:424-428 | the kept payments all lie in the month-long window |
| Installments.WindowComplete | arac_uygulamasi.py:424-428 | every payment inside the window is kept |
| Installments.OfCategory | arac_uygulamasi.py:448-450 | the kept payments all have the category |
| Installments.OfCategoryComplete | arac_uygulamasi.py:448-450 | every payment of the category is kept |
| Installments.MonthStart | arac_uygulamasi.py:421 | the corrected window start: midnight, with no microseconds, on the 1st of the current month |
| Installments.ThisMonth | arac_uygulamasi.py:423-428 | the current month's payments all lie in the window that starts at midnight on the 1st |
| Installments.MonthStartAsWritten | arac_uygulamasi.py:421 | the window start as the code builds it: the 1st of the current month, at a time of day equal to the clock's microseconds |
| Installments.ThisMonthAsWritten | arac_uygulamasi.py:423-428 | the current month's payments as the code selects them all lie in the window from that start |
| Installments.InWindowMonth | arac_uygulamasi.py:420-428 | with the window start at midnight on the 1st, a payment lies in the window exactly when it is dated in the current calendar month |
| Installments.ThisMonthIsDue | arac_uygulamasi.py:420-428 | the current month's payments are exactly the payments due in its calendar month, in order |
| Installments.ThisMonthTotal | arac_uygulamasi.py:431 | the month's total is 0 when no payment falls in the month (corrected window; see ## Findings) |
| Installments.CategoryThisMonth | arac_uygulamasi.py:446-450 | a category's payment this month is 0 when no payment falls in the month (corrected window; see ## Findings) |
| Installments.ThisMonthOfTable | arac_uygulamasi.py:406-431 | over valid dates, this month's total over the whole payment table is the sum of every expense's share in the current month (corrected window; see ## Findings) |
| Installments.CategoryOfTable | arac_uygulamasi.py:406-450 | over valid dates, a category's payment this month is the sum of the shares its own expenses pay in the current month (corrected window; see ## Findings) |
| Installments.ThisMonthOfExpense | arac_uygulamasi.py:406-431 | one expense adds its share to this month's total exactly when the current month is one of the c months from its date (corrected window; see ## Findings) |
| Installments.WindowAsWrittenShifted | arac_uygulamasi.py:421-428 | as written, with a non-zero microsecond on the clock, a payment on the 1st of this month is outside the window and one on the 1st of next month is inside it |
| Installments.WindowFirsts | arac_uygulamasi.py:420-428 | the corrected window holds the 1st of this month and not the 1st of the next |
| Installments.WindowExample | arac_uygulamasi.py:421-428 | for installments due on the 1st of this month and of the next, the month's list as written holds only the next month's, while the corrected one holds only this month's |
| Entry.KmAllowed | arac_uygulamasi.py:223 | the odometer check: an empty sheet accepts any reading, otherwise it must not be below the highest |
| Entry.CheckFuel | arac_uygulamasi.py:220-224 | a fuel form passes exactly when km, amount and litres are non-zero and km is not below the highest reading; a zero field is reported first, then a km below the stated maximum |
| Entry.CheckOther | arac_uygulamasi.py:268-274 | an expense form passes exactly when km and amount are non-zero, km is not below the highest reading and the description is not empty, and the failures are reported in that order |
| Entry.FuelEntry | arac_uygulamasi.py:226-235 | a fuel row has the fuel category and one installment, and carries the form's date, km, amount, litres, fill type and description |
| Entry.OtherEntry | arac_uygulamasi.py:276-285 | for a category the form offers, an expense row is never a fuel row, has no litres and no fill type, so it is never a full fill, and carries the form's date, km, category, amount, count and description |
| Entry.AcceptedEntry | arac_uygulamasi.py:223-238 | an accepted row becomes the new highest reading, keeps every earlier row, and keeps the readings in entry order non-decreasing |
| Entry.Sheet.SubmitFuel | arac_uygulamasi.py:220-239 | the result is the fuel checks' verdict; the row is appended on success and the sheet is unchanged otherwise; non-decreasing readings stay non-decreasing |
| Entry.Sheet.SubmitOther | arac_uygulamasi.py:268-289 | the same for the expense form |
| Loading.Remove | arac_uygulamasi.py:148 | the rewritten cell has no thousands point left and is no longer than the input |
| Loading.Normalise | arac_uygulamasi.py:148 | the rewritten cell is no longer than the input and has no comma left |
| Loading.Replace | arac_uygulamasi.py:148 | every comma becomes a point and every other character stays in place |
| Loading.NormalisedMarks | arac_uygulamasi.py:146-148 | after the rewrite no comma is left, and there are as many points as the cell had commas |
| Loading.NormaliseAppend | arac_uygulamasi.py:148 | the rewrite works character by character, so it distributes over concatenation |
| Loading.NormaliseThousands | arac_uygulamasi.py:146-148 | "high.low,fraction" is rewritten to "highlow.fraction" |
| Loading.ThousandsCell | arac_uygulamasi.py:146-149 | a cell such as "1.234,56" reads as the number its digits spell |
| Loading.ParseUnsigned | arac_uygulamasi.py:149 | a readable unsigned number is never negative |
| Loading.ParseNumber | arac_uygulamasi.py:149 | a number read as negative was written with a leading minus sign |
| Loading.Coerce | arac_uygulamasi.py:148-149 | a cell that cannot be read after the rewrite becomes 0 |
| Loading.ClampInstallments | arac_uygulamasi.py:151 | a count below 1 becomes 1; any other count is cut to the whole number below it |
| Loading.LoadRow | arac_uygulamasi.py:142-153 | a row loads exactly when its date can be read; its date is the parsed date, its km the coerced reading cut to a whole number, its amount and litres the coerced cells, its count the clamped coerced cell (at least 1), and its category, description and fill type the cells as they are; a missing cell of a short row reads as empty |
| Loading.LoadRows | arac_uygulamasi.py:142-153 | as many rows as the data has rows with a readable date, each with a count of at least 1 |
| Loading.LoadRowsKeeps | arac_uygulamasi.py:144-153 | a row with a readable date is loaded, right after the loaded rows of the dated rows before it, so the loaded rows are the dated rows in order |
| Loading.LoadSheet | arac_uygulamasi.py:126-157 | no rows without a header and a data row, with a wrong header, or when the frame cannot be built (a row wider than the header, or no data row as wide as it); otherwise the data rows as loaded; every loaded count is at least 1 |
| Loading.NarrowSheetLoadsNothing | arac_uygulamasi.py:142-157 | a sheet whose only data row is narrower than the header loads nothing, because the frame cannot be built |
| Loading.LoadAllDated | arac_uygulamasi.py:144-153 | when every date can be read, every data row is loaded, in order |
| Loading.LoadedPaymentsTotal | arac_uygulamasi.py:151 | the payment table of a loaded sheet adds up to its total spend |
| Loading.ParseSaved | arac_uygulamasi.py:146-149 | a saved amount rewrites to digits, a point and two digits, and reads as its number of hundredths over 100 |
| Loading.SaveLoadRoundTrip | arac_uygulamasi.py:169-171 | an amount of n hundredths saved with two decimals and a decimal comma reads back as the same amount, negative ones included |
| Editing.Matches | arac_uygulamasi.py:489-501 | the three filters of the editor: category list, inclusive date range, case-blind search in the description (stated through Select, Rest and SelectRestPartition) |
| Editing.LowerAll | arac_uygulamasi.py:501 | case folding keeps the length and folds each character (ASCII letters only) |
| Editing.Select | arac_uygulamasi.py:489-501 | every shown row passes the category, date-range and search filters |
| Editing.Rest | arac_uygulamasi.py:530 | every row left out fails some filter |
| Editing.SelectRestPartition | arac_uygulamasi.py:489-530 | every row is either shown or left out, exactly once |
| Editing.SelectEverything | arac_uygulamasi.py:489-501 | a filter every row passes shows the whole sheet and leaves nothing out |
| Editing.NoFilterSelectsAll | arac_uygulamasi.py:489-501 | no category, no range and no search text show the whole sheet |
| Editing.SearchIgnoresCase | arac_uygulamasi.py:501 | a description that contains the search text in any mix of ASCII upper and lower case matches it |
| Editing.Unblank | arac_uygulamasi.py:544 | a cell of nothing but the white space `\s` matches (Unicode spaces included) is emptied; other cells are kept |
| Editing.Clean | arac_uygulamasi.py:537-544 | the count is at least 1 and unchanged when it already was; date, km, amount and litres are kept; category, description and fill type are emptied when blank and kept otherwise |
| Editing.CleanIdempotent | arac_uygulamasi.py:537-544 | cleaning twice is cleaning once |
| Editing.CleanAll | arac_uygulamasi.py:537-544 | cleaning works row by row and keeps the length |
| Editing.Merge | arac_uygulamasi.py:530-544 | the saved sheet has the left-out rows plus the edited rows, each with a count of at least 1 |
| Editing.MergeKeepsRest | arac_uygulamasi.py:530-534 | the left-out rows come first and the edited rows after them, each cleaned |
| Editing.MergeUnedited | arac_uygulamasi.py:530-544 | saving clean rows without editing anything loses no row and adds none |
| FuelTab.Analyse | arac_uygulamasi.py:296-385 | the tab shows its notice exactly when the fuel series has fewer than two rows |
| FuelTab.AnalyseFuel | arac_uygulamasi.py:296-385 | the tab's computation, with the trip loop run as a method, yields the analysis `Analyse` |
| FuelTab.MonthlyMatchesOverview | arac_uygulamasi.py:309-375 | over its months the monthly table spends the overview's total fuel spend and buys the overview's litres plus the first fill's |

## Left out

- Google Sheets access (connection, `get_all_values`, `clear`, `update`) and the caching decorators are not modelled. The sheet is a sequence of rows.
- The Streamlit widgets, metrics, messages and `st.rerun` are not modelled. The forms are modelled by the values they submit.
- Display formatting is not modelled: thousands separators, `strftime`, month labels and rounding to two decimals for display.
- The save step's rounding with `f"{x:.2f}"` is not modelled. Only amounts that already are whole hundredths are saved, as digits, a decimal comma and two digits.
- The save step's reordering of the sheet by date and km is not modelled. The sheet keeps its entry order.
- Dates are `(year, month, day)` with the day in 1..31. `relativedelta`'s clamping of the day to the length of a short month is not modelled.
- The parsing of dates is a parameter of the load step. A row whose date it rejects is dropped.
- Loading.ParseNumber: reads only an optional minus sign followed by `digits[.digits]`. Exponents, surrounding white space, a leading plus sign and "inf"/"nan" spellings, which `pd.to_numeric` also accepts, are read as unreadable (0).
- Loading.LoadRow: the loaded odometer reading is the parsed number cut to a whole number, because the model keeps readings as integers.
- The load step's exception path is modelled by its outcome (no rows) only where building the frame fails: a row wider than the header, or no data row as wide as the header.
- Loading.Cell: when some data row is as wide as the header, a shorter row is padded with missing values when the frame is built. The model pads it with empty cells. Both read as 0 in the numeric columns. A missing date is taken to be unreadable only if the date parser rejects the empty cell. A missing text cell is empty here rather than missing.
- FuelSeries.SortByKm: it is a stable insertion sort. The order pandas gives rows with equal readings is not modelled.
- Monthly.Rollup: the resampling also creates the empty months between the first and last month, but their distance is undefined and the `>= 0` mask drops them. The model has only the months that have rows. The order of the displayed months is not modelled.
- Editing.Matches: the search is a literal substring match with ASCII case folding. The source's search is a regular expression with full Unicode case folding.
- Editing.LowerAll: folds ASCII letters only. Other letters, such as the Turkish "Ş" and "İ" in the sheet's own descriptions, are kept as they are, whereas the source folds them.
- Entry.OtherEntry: only the categories the expense form offers are accepted; the form's select box allows no other.
- The date-range widget's default of the whole date span is modelled as "no range" (`None`).
- Editing.Clean: the editor's cells are already typed values. The coercion of unreadable edited numbers to 0 and of unreadable edited dates is not modelled. Only the count clamp and the emptying of blank text cells are.
- The clock (`datetime.now()`) is a parameter `now` of the month-window functions.
- The entry forms require a non-zero km for every category of other expense. This follows the code, which checks km for every category.
- Floating point is not modelled: amounts, litres and rates are exact reals.

## Findings

| source | as written | input that shows it | evidently intended | confidence | as-written member | corrected member |
|---|---|---|---|---|---|---|
| arac_uygulamasi.py:421-428 | the month window starts at `now.replace(day=1, hour=0, minute=0, second=0)`, which keeps the microseconds of `now`, so the window runs from just after midnight on the 1st to just after midnight on the next 1st | now = 2026-10-15 12:00:00.000001, installments of 900 TL due on 2026-10-01 and 2026-11-01 (midnight): the October total lists the November installment and leaves out the October one | the window is the calendar month of `now`: from midnight on the 1st, inclusive, to midnight on the next 1st, exclusive | not executed | Installments.WindowAsWrittenShifted | Installments.InWindowMonth |
