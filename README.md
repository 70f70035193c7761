# Barbershop scheduler — a Dafny model

This project models the command-line barbershop appointment scheduler in
`main.cpp`. The scheduler holds a list of appointments. Each appointment
has a name, a time text such as `10am`, `2:30pm` or `10:15`, a date text, a
service and a duration in minutes. The scheduler reads commands and
writes the list back to `appointments.txt` after each change.

The model covers:

- **Time texts** (module `TimeText`, `time_text.dfy`):
  - `timeToMinutes`, step by step: the `pm`/`PM`/`am`/`AM` search, the
    filter down to digits and `:`, and `std::stoi` with its rules for
    leading blanks, sign, the 32-bit range and the exceptions it throws.
  - `minutesToTime`.
  - `parseServiceDuration`.
- **Overlap rule** (module `Appointments`, `appointments.dfy`):
  - `appointmentsOverlap`.
  - The first-conflict scan that `add` and `reschedule` run, which either
    succeeds, stops at the first overlap, or stops on an exception.
- **Slot search** (module `SlotFinder`, `slot_finder.dfy`):
  `findNextAvailableTime`, with its two nested loops, as a method proved
  equal to a search function.
- **Views** (module `Views`, `views.dfy`):
  - The daily view: the date filter, the sort by start, the display window
    rounded to 15 minutes, and the walk that alternates free and booked
    rows.
  - The weekly listing of seven days.
- **Storage** (module `Records`, `records.dfy`):
  - The `|`-separated file format, written by `saveAppointments`.
  - `loadAppointments`, read line by line with the `std::getline`
    semantics.
- **Commands** (module `Scheduling`, `scheduler.dfy`):
  - `add`, `del`, `reschedule` and `display` as functions from the old
    list to an outcome and the new list.
  - A `Scheduler` class whose methods update the list in place and are
    proved equal to those functions.
  - The weekly anchor, which is a `static` variable in the source, is a
    field of the class.

An exception that the source catches at `main.cpp:753` is a value in the
model: a `None`, `Unreadable`, `Broken`, `TimeError` or `MoveThrew`.

The clock, the calendar and the console are outside the model. They enter
as parameters bundled in `Scheduling.Env`:

- today's date text;
- the current minute;
- the Monday of this week;
- a date-shifting function standing in for `addDaysToDate`;
- the line typed at the "Choose (1/2/3)" prompt.

The source and the natural reading of its help text differ in a few places.
The model follows the source in each:

- Only the exact pairs `pm`, `PM`, `am` and `AM` set the half of the day.
- `12` without a suffix is read as midnight.
- An hour that is not followed by a suffix is taken as is.
- The next-day/after-hours dialog of `add` is offered only when booking
  for today.
- The same dialog is offered by `reschedule ... next` on any date.

## Model

| member | source | states |
|---|---|---|
| TimeText.TimeToMinutes | main.cpp:185-212 | definition of `timeToMinutes`: the am/pm pair search, the digit-and-colon filter when a pair is present, the split at the first `:`, the hour adjustment; None where `stoi` throws |
| TimeText.MinutesToTime | main.cpp:215-227 | definition of `minutesToTime`: the 12-hour hour, `:MM` only off the hour, then `am` or `pm` |
| TimeText.ParseServiceDuration | main.cpp:171-182 | definition of `parseServiceDuration`: the four fixed services, else `stoi`, else -1 |
| TimeText.Stoi | main.cpp:178 | a value read by `std::stoi` lies in the 32-bit `int` range; digits outside it, or no digits, are an exception (None) |
| TimeText.StoiIntToString | main.cpp:428 | reading back the decimal text of any 32-bit `int` gives that same number |
| TimeText.TimeRoundTrip | main.cpp:185-227 | for every minute of the day, `timeToMinutes(minutesToTime(m)) == m` |
| TimeText.MinutesToTimeShape | main.cpp:215-227 | the text ends in `pm` exactly from noon on and in `am` before; it has a `:` exactly when the minute is not on the hour; the hour 0 and the hour 12 are both written `12` |
| TimeText.ReadMeridiem | main.cpp:190-197 | a clock text followed by `am`, `pm`, `AM` or `PM` is read as the clock text alone, in the afternoon exactly for `pm` and `PM` |
| TimeText.ReadWithoutSuffix | main.cpp:190-206 | a clock text with no suffix is read as it stands, with no afternoon shift |
| TimeText.FourteenAsItStands | main.cpp:199-211 | `14` with no suffix reads as 840, that is 2pm |
| TimeText.TwoPmUpperCase | main.cpp:190-193 | `2PM` reads as 840 |
| TimeText.MixedCaseSuffix | main.cpp:190-197 | `2Pm` matches none of the four pairs, so it reads as hour 2 in the morning, 120 |
| TimeText.ReadClockFace | main.cpp:199-211 | `h` or `h:mm` with a suffix reads as the hour adjusted for am/pm, times 60, plus the minutes |
| TimeText.TwelveWithoutSuffixIsMidnight | main.cpp:208-209 | `12` with no suffix reads as minute 0 |
| TimeText.TwelveHourUndone | main.cpp:208-220 | the 12-hour hour that `minutesToTime` prints, adjusted back by `timeToMinutes`, gives the original minute |
| TimeText.ServiceDurations | main.cpp:171-182 | `hair`/`haircut` are 30, `beard` 15, `full`/`both` 45; any other word is its `stoi` value, or -1 when that throws; the duration is rejected (≤ 0) exactly when neither gives a positive number |
| TimeText.ServiceDurationOfNumber | main.cpp:176-178 | a number of minutes written in decimal is taken as that duration |
| TimeText.KeepClockCharsAppend | main.cpp:192-196 | the digit-and-colon filter works character by character |
| TimeText.IndexOf | main.cpp:200 | the index found is the first `:` or the length when there is none |
| Appointments.Overlaps | main.cpp:230-239 | definition of `appointmentsOverlap`: false on different dates, otherwise the range test on the two parsed starts; None where a time cannot be read |
| Appointments.ConflictScan | main.cpp:561-569 | definition of the overlap loop of `add` and `reschedule`: the first existing booking that overlaps, or an exception, or clear |
| Appointments.DifferentDatesNeverOverlap | main.cpp:231 | bookings on different dates never overlap, whatever their times |
| Appointments.OverlapsSymmetric | main.cpp:230-239 | a overlaps b exactly when b overlaps a, and one throws exactly when the other does |
| Appointments.BackToBackDoNotOverlap | main.cpp:238 | a booking that starts when another ends does not overlap it |
| Appointments.OverlapsItself | main.cpp:230-239 | a readable booking of positive length overlaps itself |
| Appointments.IntervalsOverlapIffCommonMinute | main.cpp:238 | the test `aStart < bEnd && aEnd > bStart` holds exactly when the two half-open ranges share a minute |
| Appointments.CheckOverlap | main.cpp:561-569 | the scan loop (also run at lines 690-698) computes the first-conflict scan |
| Appointments.ClearIffNoOverlap | main.cpp:561-571 | the scan is clear exactly when no existing booking overlaps and none throws |
| Appointments.ConflictIsFirstOverlap | main.cpp:562-568 | a reported conflict is an existing booking that overlaps, and every booking before it is known not to |
| Appointments.UnreadableHasCause | main.cpp:233-235 | a scan ends in an exception only because of some booking whose comparison throws |
| Appointments.UnreadableTimeStopsScan | main.cpp:231-233 | a new time that cannot be read throws as soon as there is any booking on the same date |
| Appointments.AppendClearKeepsNoDoubleBooking | main.cpp:571-572 | appending a booking whose scan is clear keeps the list free of overlaps |
| Appointments.RemoveKeepsNoDoubleBooking | main.cpp:598 | erasing a booking keeps the list free of overlaps |
| Appointments.MoveToEndKeepsNoDoubleBooking | main.cpp:687-701 | erasing a booking and appending it again keeps the list free of overlaps |
| SlotFinder.FindSlot | main.cpp:369-409 | definition of `findNextAvailableTime`: from 10am, or from the rounded-up current time today, in 15-minute steps while the slot ends by 6pm (10pm with override), the first start no same-date booking overlaps |
| SlotFinder.FindNextAvailableTime | main.cpp:369-409 | the nested loops compute the slot search |
| SlotFinder.FreeIffNoSameDateOverlap | main.cpp:388-401 | a candidate is free exactly when it overlaps no booking on that date |
| SlotFinder.BusyHasCause | main.cpp:396-398 | a busy candidate overlaps some booking on that date |
| SlotFinder.BrokenHasCause | main.cpp:391-392 | a candidate throws only because some booking on that date has an unreadable time |
| SlotFinder.FoundIsEarliestFree | main.cpp:387-405 | a found start is on the 15-minute grid, fits before the end, is free, and every earlier grid start is busy |
| SlotFinder.NoSlotIffAllBusy | main.cpp:387-408 | the search returns the empty text exactly when every grid start that fits is busy |
| SlotFinder.TimeErrorHasCause | main.cpp:391-392 | the search throws only because of a booking on that date with an unreadable time |
| SlotFinder.FindSlotFound | main.cpp:371-406 | a found slot starts at 10am or later, and not before the rounded-up current time for today; it ends by 6pm (10pm with override); it overlaps nothing on that date; it is the earliest such start |
| SlotFinder.FoundSlotPassesScan | main.cpp:519-569 | a booking placed at a found slot passes the overlap scan of `add` |
| SlotFinder.SlotOverlaps | main.cpp:230-239 | the overlap test of the scan and the busy test of the search (lines 392-396) agree |
| SlotFinder.EmptyDateGivesFirstCandidate | main.cpp:377-404 | on a date with no bookings the first candidate is taken; on a day other than today a 45-minute booking gets `10am` |
| Views.DailyView | main.cpp:250-325 | definition of `displayDailySchedule`: the date's bookings sorted by start, the display window and the rows of the walk; None where a time cannot be read |
| Views.SortByStart | main.cpp:266-268 | definition of the sort by start minute, as an insertion sort |
| Views.WeekView | main.cpp:328-366 | definition of `displayWeeklySchedule`: the entries of the seven days from the anchor, stopping at one whose sort throws |
| Views.SelectDate | main.cpp:258-263 | the filter loop keeps the bookings of one date in order |
| Views.AppointmentsOnCounts | main.cpp:258-263 | the filtered list holds each booking of that date as often as the collection does, and nothing else |
| Views.ParseAllReads | main.cpp:266-275 | all start times of a day can be read exactly when no time text throws |
| Views.SortByStartSorts | main.cpp:266-268 | the sort orders by start minute and is a permutation of its input |
| Views.DailyViewContents | main.cpp:257-268 | the daily view throws exactly when a booking on that date has an unreadable time; otherwise it lists exactly that date's bookings, sorted by time |
| Views.DisplayDailySchedule | main.cpp:250-325 | the procedure computes the daily view |
| Views.DisplayWindow | main.cpp:270-283 | the loop computes the display window |
| Views.EarliestStartIsMinimum | main.cpp:271-277 | the window opens at 10am or the earliest booking, whichever is earlier |
| Views.LatestEndIsMaximum | main.cpp:272-278 | the window closes at 6pm or the latest end, whichever is later |
| Views.WindowBounds | main.cpp:281-283 | both window ends are on the 15-minute grid; every booking of the day ends inside the window; the window ends less than 15 minutes after the latest end; with no negative start it opens less than 15 minutes before the earliest start |
| Views.WalkDay | main.cpp:285-322 | the loop computes the row walk |
| Views.WalkBookedApts | main.cpp:288-314 | the booked rows of the walk are the day's bookings, in order |
| Views.WalkRowShapes | main.cpp:293-310 | every free row is a non-empty range; every booked row is a booking with its start, its end and the out-of-hours flag for starts before 10am or from 6pm |
| Views.WalkTiles | main.cpp:286-322 | with bookings that follow one another, the rows cover the walk's range without gap or overlap |
| Views.NonOverlappingChain | main.cpp:266-313 | sorted bookings of positive length that do not overlap follow one another |
| Views.DailyViewTiles | main.cpp:271-322 | for a day free of double booking, with every duration positive and no start before midnight, the rows tile the display window exactly (a negative start would be truncated toward zero, past the booking) |
| Views.ListDay | main.cpp:336-360 | the loop computes one day entry of the weekly view |
| Views.DayEntryMeaning | main.cpp:336-360 | a day entry throws exactly when the day has two or more bookings and one time cannot be read; it says "no appointments" exactly when the date has none; otherwise it lists exactly that date's bookings, sorted when there are two or more |
| Views.DisplayWeeklySchedule | main.cpp:328-366 | the loop computes the weekly listing |
| Views.ListEntriesPrefix | main.cpp:332-363 | the listing holds the entries in order up to the first that throws; it is complete exactly when none throws |
| Views.WeekViewEntries | main.cpp:332-363 | the weekly listing holds at most seven days; day k is the entry of `addDays(start, k)`; it is complete exactly when all seven are listed, and otherwise the next day's entry is the one that throws |
| Records.EncodeAll | main.cpp:436-448 | definition of the file text that `saveAppointments` writes: one line per booking, fields joined by pipes, each line ended by a newline |
| Records.ParseLine | main.cpp:420-430 | definition of reading one line: four pipe-ended fields and the rest as the duration; skipped when a field is missing, an exception when `stoi` throws |
| Records.LoadText | main.cpp:418-431 | definition of the line loop of `loadAppointments`: the parsed bookings in order, skipped lines dropped, None when a duration throws |
| Records.SaveAppointments | main.cpp:436-448 | the loop writes one name, time, date, service and duration line, joined by pipes, line per booking, in order |
| Records.GetLine | main.cpp:419-427 | `std::getline` fails exactly on an exhausted input; it returns the text up to the first delimiter and the rest after it, or the whole text at the end |
| Records.LoadAppointments | main.cpp:412-433 | the loop computes the loaded list; a missing file loads nothing |
| Records.ParseRecordLine | main.cpp:423-445 | a stored line of a booking with no pipe or newline in its fields reads back as that booking |
| Records.LoadRecord | main.cpp:419-430 | a stored line followed by more text loads that booking, then the rest |
| Records.SaveLoadRoundTrip | main.cpp:412-448 | loading the saved file gives back the same list, for bookings with no pipe or newline in their fields |
| Records.FewFieldsSkipped | main.cpp:423-427 | a line with fewer than four pipes is skipped |
| Records.ParsedLineShape | main.cpp:423-429 | a loaded booking came from a line of exactly its four fields and a duration text that `stoi` reads as its duration |
| Records.SeparatorInNameBreaksFile | main.cpp:423-444 | a name holding a pipe is saved as an extra field, so the next load throws on the shifted duration text |
| Scheduling.NextDate | main.cpp:116-130 | definition of `getNextDate` as the calendar step of one day, `addDays(date, 1)` |
| Scheduling.NextPlacement | main.cpp:519-555 | definition of the `next` placement: the slot search on the date and, when it finds nothing and the dialog is offered, choice 1 searches the next day, 2 searches with the override, anything else cancels |
| Scheduling.AddCommand | main.cpp:488-579 | definition of `add`: usage error, invalid service, the placement, then the overlap scan |
| Scheduling.DelCommand | main.cpp:581-609 | definition of `del`: erase the first booking with that name and time, or report not found |
| Scheduling.Reschedule | main.cpp:611-714 | definition of `reschedule`, with a switch for whether an exception puts the original back |
| Scheduling.RescheduleAsWritten | main.cpp:611-714 | `reschedule` as written: an exception after the erase leaves the original out |
| Scheduling.RescheduleCommand | main.cpp:611-714 | `reschedule` corrected: an exception puts the original back, like the other failures |
| Scheduling.WeekAnchor | main.cpp:731-740 | definition of the weekly anchor update: `next` +7 days, `prev`/`previous` -7, no word resets to this week, anything else keeps it |
| Scheduling.DisplayCommand | main.cpp:720-750 | definition of `display`: daily view of today, weekly view from the updated anchor, daily view of a word holding `-`, or an invalid option |
| Scheduling.DaysToMonday | main.cpp:163 | definition of the days back to Monday: 6 on Sunday, otherwise the weekday minus one |
| Scheduling.FirstMatch | main.cpp:625-628 | as in both lookups (also lines 593-594), the index is that of the first booking with the given name and time, or the length when none matches |
| Scheduling.FindAppointment | main.cpp:593-603 | the search loop finds the first match |
| Scheduling.PlaceNext | main.cpp:519-555 | the `next` placement (also lines 647-681), with the slot search and the dialog, computes the placement function |
| Scheduling.PlacedIsFoundSlot | main.cpp:519-551 | a placed booking is at a slot the search found, on the asked date or, with choice 1, on the next day |
| Scheduling.PlacedSlotIsClear | main.cpp:519-569 | a placed booking of positive length passes the overlap scan |
| Scheduling.AddedBooking | main.cpp:488-579 | an added booking has the typed name and service, a positive duration, the typed time and date (today by default), and overlaps no existing booking |
| Scheduling.AddNextNeverOverlaps | main.cpp:519-572 | `add ... next` never reports an overlap; it adds whenever a placement is found and the duration is valid |
| Scheduling.AddRejections | main.cpp:504-569 | an invalid service is rejected; an explicit time that overlaps reports the first conflicting booking; a rejected add leaves the list unchanged |
| Scheduling.AddOverlappingHenry | main.cpp:557-569 | with Henry booked for hair at 10am today, `add John 10:15am beard` reports the overlap with Henry |
| Scheduling.AddNextWithoutSlot | main.cpp:519-555 | with no slot left, another date is refused; today offers the dialog, where 1 books the next day's first slot, 2 the first after-hours slot, and anything else cancels |
| Scheduling.AddKeepsSchedule | main.cpp:561-573 | `add` keeps a list free of overlaps and of non-positive durations |
| Scheduling.DelRemovesFirstMatch | main.cpp:592-607 | `del` removes exactly the first booking with that name and time, keeps the others in order, and reports not-found exactly when none matches |
| Scheduling.DelKeepsSchedule | main.cpp:598 | `del` keeps a list free of overlaps and of non-positive durations |
| Scheduling.RescheduleShape | main.cpp:636-707 | a move replaces the first match by a copy that differs only in time and date, moved to the end; a refusal puts the original back at the end; an exception leaves the list with or without it |
| Scheduling.RescheduleExplicit | main.cpp:685-707 | an explicit new time is checked against the list without the original |
| Scheduling.RescheduleNext | main.cpp:643-684 | `next` places the booking by the slot search over the list without the original, with the dialog offered on any date |
| Scheduling.RescheduleKeepsBookings | main.cpp:636-707 | in the corrected command, a move swaps the original for the moved copy; every other outcome leaves the same bookings |
| Scheduling.MovedIsClear | main.cpp:645-706 | a moved booking of positive length overlaps none of the others |
| Scheduling.RescheduleKeepsSchedule | main.cpp:624-707 | the corrected command keeps a list free of overlaps and of non-positive durations |
| Scheduling.RescheduleAsWrittenDropsOnError | main.cpp:645-753 | as written, a reschedule that throws leaves the list without the original booking |
| Scheduling.UnreadableNewTimeThrows | main.cpp:686-698 | an explicit new time that cannot be read throws whenever another booking is on the target date |
| Scheduling.RescheduleToNoonLosesBooking | main.cpp:686-753 | with Henry at 10am and John at 11am, `reschedule Henry 10am noon` as written leaves only John; corrected, it keeps both |
| Scheduling.RescheduleNextWithoutSlot | main.cpp:649-681 | with no slot left on the date, choice 1 moves to the next day's first slot, choice 2 to the first after-hours slot, and anything else cancels and keeps the original |
| Scheduling.RescheduleInPlaceSucceeds | main.cpp:686-706 | rescheduling a booking that overlaps nothing to its own time succeeds, since the original is erased before the check |
| Scheduling.WeekNavigation | main.cpp:731-740 | `next` moves the anchor 7 days on and `prev`/`previous` 7 days back; no word resets it to this week; any other word keeps it; the first use starts from this week |
| Scheduling.DaysToMondayLandsOnMonday | main.cpp:163 | stepping back the computed number of days from any weekday lands on a Monday, at most 6 days back |
| Scheduling.Scheduler.constructor | main.cpp:454-458 | the scheduler starts with the loaded list and no weekly anchor yet |
| Scheduling.Scheduler.Add | main.cpp:488-579 | `add` updates the list to the outcome of the add function and leaves the anchor |
| Scheduling.Scheduler.Del | main.cpp:581-609 | `del` updates the list to the outcome of the delete function and leaves the anchor |
| Scheduling.Scheduler.Reschedule | main.cpp:611-714 | `reschedule` updates the list to the outcome of the corrected reschedule function and leaves the anchor |
| Scheduling.Scheduler.Display | main.cpp:720-750 | `display` shows the view chosen by its words, updates only the weekly anchor, and leaves the list |

## Left out

- Console output is left out: messages, the help text, prompts and the widths of the printed columns. The views are returned as data instead of text.
- Splitting the input line into a command and words is left out. Each command takes its words already split, as `>>` would split them.
- `getCurrentDate` and `getCurrentTimeInMinutes` become the parameters `today` and `now`.
- All clock reads within one command share one `today` and one `now`. The source reads the clock again on every `findNextAvailableTime` call (main.cpp:376-380) and calls `getCurrentDate` twice in `add` (main.cpp:515-523), so a search after the "Choose (1/2/3)" prompt can see a later time than the first search. The model gives both searches the same reading.
- `addDaysToDate` is the parameter `addDays`, and `getNextDate` is modelled as `addDays(date, 1)` (`Scheduling.NextDate`), which picks the date of the choice-1 retry in `add` and `reschedule`. Only `getDayOfWeek` and `formatDateDisplay`, which produce display text, are left out.
- Dates are opaque texts, compared only for equality, as the source compares them.
- Scheduling.DaysToMonday: only the weekday arithmetic of `getWeekStart` is modelled. Reading the local time and formatting the Monday are left out, and the result is the `weekStart` parameter.
- Records.LoadAppointments / Records.SaveAppointments: opening, writing and closing the file are left out. Save returns the file text. Load takes the text, or None when the file does not exist. The "could not open for writing" error is left out.
- Scheduling.Scheduler.Add: the save after each change is not performed by the method. Save's output is a function of the list (`Records.EncodeAll`).
- TimeText.TimeToMinutes: `hours * 60 + minutes` is computed on unbounded integers. The source's 32-bit overflow for an hour near 2^31 is undefined behaviour and is not modelled.
- Appointments.Overlaps: `start + duration` is computed on unbounded integers, for the same reason.
- SlotFinder.FindSlot: `currentTime + duration` and `slotEnd` (main.cpp:387-394) are computed on unbounded integers. A huge duration such as `add X next 2147483647` is undefined behaviour in the source and a plain "no slot" in the model.
- Views.DisplayWindow / Views.Walk: `aptStart + apt.duration` (main.cpp:276-291) is computed on unbounded integers, for the same reason.
- Views.SortByStart: `std::sort` is not stable. The model uses a stable insertion sort. The contracts state sortedness and the same bookings, not the order among equal starts.
- Views.SortByStart: the comparator's exception is modelled as a check of every time before sorting. With two or more bookings on a day, `std::sort` compares every element, so the outcome is the same.
- Error types are merged: an `std::out_of_range` from `stoi` is treated like an `std::invalid_argument`. At `main.cpp:753` only the second is caught, so the first ends the program in the source. The model treats every throw as ending the command.
- Records.LoadAppointments: a throw while loading is outside any `try` in the source and ends the program. The model returns None.

## Findings

| source | as written | input that shows it | evidently intended | confidence | as-written member | corrected member |
|---|---|---|---|---|---|---|
| main.cpp:645-753 | `reschedule` erases the original before the overlap scan or the slot search. An exception from either leaves through the catch at line 753 without the push-back that every other failure path does, so the booking is lost. | Henry booked at 10am and John at 11am on 2025-12-15; `reschedule Henry 10am noon` | a failed reschedule puts the original back, as lines 665, 672, 678 and 701 do | not executed | Scheduling.RescheduleToNoonLosesBooking | Scheduling.RescheduleKeepsBookings |
