/**
 * The daily and weekly schedule views (main.cpp:250-366) as data: the
 * bookings of a date in time order, the daily window rounded to the
 * 15-minute grid and walked into available and booked segments, and the
 * seven day entries of a week. Printed text, day names and date
 * formatting are not modelled.
 */
module Views {
  import opened Wrappers
  import opened TimeText
  import opened Appointments

  // Selecting and ordering the bookings of one date

  /** The bookings on `date`, in collection order (the loops at main.cpp:258-263 and 338-343). */
  function AppointmentsOn(apts: seq<Appointment>, date: string): seq<Appointment>
    decreases |apts|
  {
    if apts == [] then []
    else (if apts[0].date == date then [apts[0]] else []) + AppointmentsOn(apts[1..], date)
  }

  /** The filter loop as the program runs it. */
  method SelectDate(apts: seq<Appointment>, date: string) returns (day: seq<Appointment>)
    ensures day == AppointmentsOn(apts, date)
  {
    day := [];
    var i := 0;
    while i < |apts|
      invariant 0 <= i <= |apts|
      invariant day + AppointmentsOn(apts[i..], date) == AppointmentsOn(apts, date)
    {
      var picked := if apts[i].date == date then [apts[i]] else [];
      AppointmentsOnFrom(apts, i, date);
      AppendAssoc(day, picked, AppointmentsOn(apts[i + 1..], date));
      day := day + picked;
      i := i + 1;
    }
    assert apts[i..] == [];
  }

  lemma AppointmentsOnFrom(apts: seq<Appointment>, i: nat, date: string)
    requires i < |apts|
    ensures AppointmentsOn(apts[i..], date)
         == (if apts[i].date == date then [apts[i]] else []) + AppointmentsOn(apts[i + 1..], date)
  {
    assert apts[i..][1..] == apts[i + 1..];
  }

  /** A booking with its time read as minutes since midnight. */
  datatype Booking = Booking(apt: Appointment, start: int)
  {
    function End(): int { start + apt.duration }
  }

  /** The booking's start is what `timeToMinutes` reads from its time. */
  predicate ReadFrom(b: Booking)
  {
    TimeToMinutes(b.apt.time) == Some(b.start)
  }

  /** Every time read in order; None as soon as one of them throws. */
  function ParseAll(apts: seq<Appointment>): Option<seq<Booking>>
    decreases |apts|
  {
    if apts == [] then Some([])
    else match TimeToMinutes(apts[0].time)
      case None => None
      case Some(s) =>
        var rest := ParseAll(apts[1..]);
        if rest.None? then None else Some([Booking(apts[0], s)] + rest.value)
  }

  /** The appointments of a sequence of bookings, in order. */
  function AptsOf(bs: seq<Booking>): seq<Appointment>
    decreases |bs|
  {
    if bs == [] then [] else [bs[0].apt] + AptsOf(bs[1..])
  }

  predicate SortedByStart(bs: seq<Booking>)
  {
    forall i, j | 0 <= i < j < |bs| :: bs[i].start <= bs[j].start
  }

  /** `b` inserted before the first booking that starts later than it. */
  function Insert(b: Booking, bs: seq<Booking>): seq<Booking>
    decreases |bs|
  {
    if bs == [] || b.start <= bs[0].start then [b] + bs
    else [bs[0]] + Insert(b, bs[1..])
  }

  /**
   * The order `std::sort` establishes with the comparator
   * `timeToMinutes(a.time) < timeToMinutes(b.time)` (main.cpp:266-268).
   * The library sort is not stable; this one is, which is one of the
   * orders it may produce.
   */
  function SortByStart(bs: seq<Booking>): seq<Booking>
    decreases |bs|
  {
    if bs == [] then [] else Insert(bs[0], SortByStart(bs[1..]))
  }

  lemma {:induction false} InsertElements(b: Booking, bs: seq<Booking>)
    ensures multiset(Insert(b, bs)) == multiset{b} + multiset(bs)
    decreases |bs|
  {
    if bs != [] && b.start > bs[0].start {
      InsertElements(b, bs[1..]);
      assert bs == [bs[0]] + bs[1..];
    }
  }

  lemma {:induction false} InsertAppointments(b: Booking, bs: seq<Booking>)
    ensures multiset(AptsOf(Insert(b, bs))) == multiset{b.apt} + multiset(AptsOf(bs))
    decreases |bs|
  {
    if bs != [] && b.start > bs[0].start {
      InsertAppointments(b, bs[1..]);
      assert AptsOf(Insert(b, bs)) == [bs[0].apt] + AptsOf(Insert(b, bs[1..]));
      assert AptsOf(bs) == [bs[0].apt] + AptsOf(bs[1..]);
    } else {
      assert AptsOf([b] + bs) == [b.apt] + AptsOf(bs);
    }
  }

  /** Inserting a booking that starts no earlier than `lo` among such bookings keeps them so. */
  lemma {:induction false} InsertLowerBound(b: Booking, bs: seq<Booking>, lo: int)
    requires lo <= b.start
    requires forall k | 0 <= k < |bs| :: lo <= bs[k].start
    ensures forall k | 0 <= k < |Insert(b, bs)| :: lo <= Insert(b, bs)[k].start
    decreases |bs|
  {
    if bs != [] && b.start > bs[0].start {
      InsertLowerBound(b, bs[1..], lo);
      var r := Insert(b, bs);
      assert forall k | 0 < k < |r| :: r[k] == Insert(b, bs[1..])[k - 1];
    }
  }

  lemma {:induction false} InsertSorted(b: Booking, bs: seq<Booking>)
    requires SortedByStart(bs)
    ensures SortedByStart(Insert(b, bs))
    decreases |bs|
  {
    var r := Insert(b, bs);
    if bs == [] || b.start <= bs[0].start {
      assert forall k | 0 < k < |r| :: r[k] == bs[k - 1];
    } else {
      var tail := Insert(b, bs[1..]);
      InsertSorted(b, bs[1..]);
      InsertLowerBound(b, bs[1..], bs[0].start);
      assert forall k | 0 < k < |r| :: r[k] == tail[k - 1];
    }
  }

  /** The sort orders by start. */
  lemma {:induction false} SortByStartSorted(bs: seq<Booking>)
    ensures SortedByStart(SortByStart(bs))
    decreases |bs|
  {
    if bs != [] {
      SortByStartSorted(bs[1..]);
      InsertSorted(bs[0], SortByStart(bs[1..]));
    }
  }

  /** The sort keeps every booking as often as it occurs. */
  lemma {:induction false} SortByStartPermutes(bs: seq<Booking>)
    ensures multiset(SortByStart(bs)) == multiset(bs)
    decreases |bs|
  {
    if bs != [] {
      SortByStartPermutes(bs[1..]);
      InsertElements(bs[0], SortByStart(bs[1..]));
      assert bs == [bs[0]] + bs[1..];
    }
  }

  /** The sort keeps every appointment as often as it occurs. */
  lemma {:induction false} SortByStartKeepsAppointments(bs: seq<Booking>)
    ensures multiset(AptsOf(SortByStart(bs))) == multiset(AptsOf(bs))
    decreases |bs|
  {
    if bs != [] {
      SortByStartKeepsAppointments(bs[1..]);
      InsertAppointments(bs[0], SortByStart(bs[1..]));
      assert AptsOf(bs) == [bs[0].apt] + AptsOf(bs[1..]);
    }
  }

  /** The sort orders by start, keeps every booking as often as it occurs, and so every appointment. */
  lemma SortByStartSorts(bs: seq<Booking>)
    ensures SortedByStart(SortByStart(bs))
    ensures multiset(SortByStart(bs)) == multiset(bs)
    ensures multiset(AptsOf(SortByStart(bs))) == multiset(AptsOf(bs))
  {
    SortByStartSorted(bs);
    SortByStartPermutes(bs);
    SortByStartKeepsAppointments(bs);
  }

  /** The bookings of `date` read and sorted; None when a time throws. */
  function DayBookings(apts: seq<Appointment>, date: string): Option<seq<Booking>>
  {
    var parsed := ParseAll(AppointmentsOn(apts, date));
    if parsed.None? then None else Some(SortByStart(parsed.value))
  }

  // The daily view (main.cpp:250-325)

  /** A row of the daily view: a free range, or a booking with its range and flag. */
  datatype Segment =
    | Available(from: int, to: int)
    | Booked(apt: Appointment, from: int, to: int, outsideHours: bool)

  /** The daily view: the day's bookings in order, the displayed window and its rows. */
  datatype DailySchedule = DailySchedule(appointments: seq<Appointment>, windowStart: int, windowEnd: int,
                                         segments: seq<Segment>)

  /** The earlier of 10am and the earliest start (the `displayStart` loop, main.cpp:273-278). */
  function EarliestStart(bs: seq<Booking>): int
    decreases |bs|
  {
    if bs == [] then BusinessStart
    else
      var m := EarliestStart(bs[..|bs| - 1]);
      if bs[|bs| - 1].start < m then bs[|bs| - 1].start else m
  }

  /** The later of 6pm and the latest end (the `displayEnd` loop, main.cpp:273-278). */
  function LatestEnd(bs: seq<Booking>): int
    decreases |bs|
  {
    if bs == [] then BusinessEnd
    else
      var m := LatestEnd(bs[..|bs| - 1]);
      if bs[|bs| - 1].End() > m then bs[|bs| - 1].End() else m
  }

  /** C++ integer division, which truncates toward zero. */
  function TruncDiv(a: int, b: int): int
    requires b > 0
  {
    if a >= 0 then a / b else -((-a) / b)
  }

  /** `(displayStart / 15) * 15` (main.cpp:281). */
  function WindowStart(bs: seq<Booking>): int
  {
    TruncDiv(EarliestStart(bs), Interval) * Interval
  }

  /** `((displayEnd + 14) / 15) * 15` (main.cpp:282). */
  function WindowEnd(bs: seq<Booking>): int
  {
    TruncDiv(LatestEnd(bs) + Interval - 1, Interval) * Interval
  }

  /** A booking before 10am or from 6pm on is shown as outside hours (main.cpp:304). */
  predicate OutsideHours(start: int)
  {
    start < BusinessStart || start >= BusinessEnd
  }

  /** The row of a booking. */
  function BookedRow(b: Booking): Segment
  {
    Booked(b.apt, b.start, b.End(), OutsideHours(b.start))
  }

  /** A free range from `from` to `to`, when it is not empty. */
  function Gap(from: int, to: int): seq<Segment>
  {
    if from < to then [Available(from, to)] else []
  }

  /**
   * The walk of main.cpp:285-322 with the cursor at `cur`: a free range
   * up to each booking that starts later, the booking itself, the cursor
   * moved to its end; and a free range to the end of the window.
   */
  function Walk(bs: seq<Booking>, cur: int, end: int): seq<Segment>
    decreases |bs|
  {
    if bs == [] then Gap(cur, end)
    else Gap(cur, bs[0].start) + [BookedRow(bs[0])] + Walk(bs[1..], bs[0].End(), end)
  }

  /** `displayDailySchedule` as data; None when reading a time throws. */
  function DailyView(apts: seq<Appointment>, date: string): Option<DailySchedule>
  {
    var day := DayBookings(apts, date);
    if day.None? then None
    else
      var bs := day.value;
      Some(DailySchedule(AptsOf(bs), WindowStart(bs), WindowEnd(bs), Walk(bs, WindowStart(bs), WindowEnd(bs))))
  }

  /**
   * The daily view as the program builds it: the filter loop, the sort,
   * the window and the walk.
   */
  method DisplayDailySchedule(apts: seq<Appointment>, date: string) returns (r: Option<DailySchedule>)
    ensures r == DailyView(apts, date)
  {
    var day := SelectDate(apts, date);
    var parsed := ParseAll(day);
    if parsed.None? {
      return None;
    }
    var bs := SortByStart(parsed.value);
    var displayStart, displayEnd := DisplayWindow(bs);
    var segments := WalkDay(bs, displayStart, displayEnd);
    assert DayBookings(apts, date) == Some(bs);
    return Some(DailySchedule(AptsOf(bs), displayStart, displayEnd, segments));
  }

  /** The loop widening the window to every booking, then the rounding to the grid. */
  method DisplayWindow(bs: seq<Booking>) returns (displayStart: int, displayEnd: int)
    ensures displayStart == WindowStart(bs) && displayEnd == WindowEnd(bs)
  {
    displayStart, displayEnd := BusinessStart, BusinessEnd;
    var i := 0;
    while i < |bs|
      invariant 0 <= i <= |bs|
      invariant displayStart == EarliestStart(bs[..i]) && displayEnd == LatestEnd(bs[..i])
    {
      assert bs[..i + 1][..i] == bs[..i];
      if bs[i].start < displayStart {
        displayStart := bs[i].start;
      }
      if bs[i].End() > displayEnd {
        displayEnd := bs[i].End();
      }
      i := i + 1;
    }
    assert bs[..i] == bs;
    displayStart := TruncDiv(displayStart, Interval) * Interval;
    displayEnd := TruncDiv(displayEnd + Interval - 1, Interval) * Interval;
  }

  /** The walk with its cursor `currentTime`. */
  method WalkDay(bs: seq<Booking>, displayStart: int, displayEnd: int) returns (segments: seq<Segment>)
    ensures segments == Walk(bs, displayStart, displayEnd)
  {
    segments := [];
    var currentTime := displayStart;
    var i := 0;
    while i < |bs|
      invariant 0 <= i <= |bs|
      invariant segments + Walk(bs[i..], currentTime, displayEnd) == Walk(bs, displayStart, displayEnd)
    {
      ghost var before := segments;
      ghost var gap := Gap(currentTime, bs[i].start);
      WalkFrom(bs, i, currentTime, displayEnd);
      if currentTime < bs[i].start {
        segments := segments + [Available(currentTime, bs[i].start)];
      }
      assert segments == before + gap;
      segments := segments + [BookedRow(bs[i])];
      WalkRegroup(before, gap, BookedRow(bs[i]), Walk(bs[i + 1..], bs[i].End(), displayEnd));
      currentTime := bs[i].End();
      i := i + 1;
    }
    assert bs[i..] == [];
    if currentTime < displayEnd {
      segments := segments + [Available(currentTime, displayEnd)];
    }
  }

  /** The walk from booking `i` on: the gap before it, its row, then the walk after it. */
  lemma WalkFrom(bs: seq<Booking>, i: nat, cur: int, end: int)
    requires i < |bs|
    ensures Walk(bs[i..], cur, end) == Gap(cur, bs[i].start) + [BookedRow(bs[i])] + Walk(bs[i + 1..], bs[i].End(), end)
  {
    assert bs[i..][1..] == bs[i + 1..];
  }

  lemma WalkRegroup(before: seq<Segment>, gap: seq<Segment>, row: Segment, after: seq<Segment>)
    ensures before + (gap + [row] + after) == (before + gap + [row]) + after
  {
  }

  // The weekly view (main.cpp:328-366)

  /** One day of the weekly view: its date and its bookings in time order, or none. */
  datatype DayEntry = NoAppointments(date: string) | Listed(date: string, appointments: seq<Appointment>)

  /**
   * The weekly sort: `std::sort` calls its comparator, and so reads
   * times, only when the day has two bookings or more.
   */
  function WeekDaySort(day: seq<Appointment>): Option<seq<Appointment>>
  {
    if |day| < 2 then Some(day)
    else
      var parsed := ParseAll(day);
      if parsed.None? then None else Some(AptsOf(SortByStart(parsed.value)))
  }

  /** The entry of one date; None when its sort throws. */
  function DayEntryOf(apts: seq<Appointment>, date: string): Option<DayEntry>
  {
    var sorted := WeekDaySort(AppointmentsOn(apts, date));
    if sorted.None? then None
    else if sorted.value == [] then Some(NoAppointments(date))
    else Some(Listed(date, sorted.value))
  }

  /**
   * The days listed before the view stops, and whether all seven were
   * listed (an exception ends the listing part-way through the week).
   */
  datatype WeekListing = WeekListing(days: seq<DayEntry>, complete: bool)

  /** The entries of the seven days from `start`, each computed on its own. */
  function WeekEntries(apts: seq<Appointment>, start: string, addDays: (string, int) -> string): seq<Option<DayEntry>>
  {
    seq(7, k => DayEntryOf(apts, addDays(start, k)))
  }

  /** The listing of `entries` in order, stopping at the first one whose sort threw. */
  function ListEntries(entries: seq<Option<DayEntry>>): WeekListing
    decreases |entries|
  {
    if entries == [] then WeekListing([], true)
    else if entries[0].None? then WeekListing([], false)
    else
      var rest := ListEntries(entries[1..]);
      WeekListing([entries[0].value] + rest.days, rest.complete)
  }

  /** `displayWeeklySchedule` as data, with the calendar step `addDaysToDate` as a parameter. */
  function WeekView(apts: seq<Appointment>, start: string, addDays: (string, int) -> string): WeekListing
  {
    ListEntries(WeekEntries(apts, start, addDays))
  }

  /** The weekly view as the program builds it: one pass of the day loop per date. */
  method DisplayWeeklySchedule(apts: seq<Appointment>, start: string, addDays: (string, int) -> string)
    returns (w: WeekListing)
    ensures w == WeekView(apts, start, addDays)
  {
    ghost var entries := WeekEntries(apts, start, addDays);
    var days: seq<DayEntry> := [];
    var day := 0;
    while day < 7
      invariant 0 <= day <= 7
      invariant WeekView(apts, start, addDays)
             == WeekListing(days + ListEntries(entries[day..]).days, ListEntries(entries[day..]).complete)
    {
      var currentDate := addDays(start, day);
      var entry := ListDay(apts, currentDate);
      assert entry == entries[day];
      ListEntriesStep(entries, day);
      if entry.None? {
        assert days + [] == days;
        return WeekListing(days, false);
      }
      ghost var rest := ListEntries(entries[day + 1..]);
      assert days + ([entry.value] + rest.days) == (days + [entry.value]) + rest.days;
      days := days + [entry.value];
      day := day + 1;
    }
    assert entries[day..] == [];
    assert days + [] == days;
    return WeekListing(days, true);
  }

  /** One step of the listing, from entry `d` to the ones after it. */
  lemma ListEntriesStep(entries: seq<Option<DayEntry>>, d: nat)
    requires d < |entries|
    ensures ListEntries(entries[d..]) == if entries[d].None? then WeekListing([], false)
                                          else WeekListing([entries[d].value] + ListEntries(entries[d + 1..]).days,
                                                           ListEntries(entries[d + 1..]).complete)
  {
    assert entries[d..][1..] == entries[d + 1..];
  }

  /** One pass of the day loop: the filter, the sort and the entry for `date`. */
  method ListDay(apts: seq<Appointment>, date: string) returns (entry: Option<DayEntry>)
    ensures entry == DayEntryOf(apts, date)
  {
    var dayAppts := SelectDate(apts, date);
    var sorted := WeekDaySort(dayAppts);
    if sorted.None? {
      return None;
    }
    if sorted.value == [] {
      return Some(NoAppointments(date));
    }
    return Some(Listed(date, sorted.value));
  }

  // Which bookings a view shows

  /** The bookings of a date are the bookings of the collection that carry that date. */
  lemma {:induction false} AppointmentsOnCounts(apts: seq<Appointment>, date: string, a: Appointment)
    ensures multiset(AppointmentsOn(apts, date))[a] == if a.date == date then multiset(apts)[a] else 0
    decreases |apts|
  {
    if apts != [] {
      AppointmentsOnCounts(apts[1..], date, a);
      assert apts == [apts[0]] + apts[1..];
    }
  }

  /** Reading every time succeeds exactly when each one reads, and keeps the order. */
  lemma {:induction false} ParseAllReads(apts: seq<Appointment>)
    ensures ParseAll(apts).Some? <==> forall a | a in apts :: TimeToMinutes(a.time).Some?
    ensures ParseAll(apts).Some? ==> AptsOf(ParseAll(apts).value) == apts
    ensures ParseAll(apts).Some? ==> forall b | b in ParseAll(apts).value :: ReadFrom(b)
    decreases |apts|
  {
    if apts != [] {
      ParseAllReads(apts[1..]);
      assert forall a | a in apts :: a == apts[0] || a in apts[1..];
      if ParseAll(apts).Some? {
        var bs := ParseAll(apts).value;
        assert bs[1..] == ParseAll(apts[1..]).value;
        assert forall b | b in bs :: b == bs[0] || b in bs[1..];
      }
    }
  }

  /** Sorted bookings give appointments in order of the times they read as. */
  predicate SortedByTime(apts: seq<Appointment>)
  {
    forall i, j | 0 <= i < j < |apts| ::
      TimeToMinutes(apts[i].time).Some? && TimeToMinutes(apts[j].time).Some?
      && TimeToMinutes(apts[i].time).value <= TimeToMinutes(apts[j].time).value
  }

  lemma {:induction false} AptsOfIndex(bs: seq<Booking>)
    ensures |AptsOf(bs)| == |bs| && forall i | 0 <= i < |bs| :: AptsOf(bs)[i] == bs[i].apt
    decreases |bs|
  {
    if bs != [] {
      AptsOfIndex(bs[1..]);
    }
  }

  lemma SortedBookingsGiveSortedTimes(bs: seq<Booking>)
    requires SortedByStart(bs) && forall b | b in bs :: ReadFrom(b)
    ensures SortedByTime(AptsOf(bs))
  {
    AptsOfIndex(bs);
    forall i, j | 0 <= i < j < |bs|
      ensures TimeToMinutes(AptsOf(bs)[i].time) == Some(bs[i].start)
      ensures TimeToMinutes(AptsOf(bs)[j].time) == Some(bs[j].start)
    {
      assert ReadFrom(bs[i]) && ReadFrom(bs[j]);
    }
  }

  /**
   * The daily view fails exactly when a booking on that date has a time
   * `std::stoi` cannot read; otherwise it shows exactly that date's
   * bookings, each as often as it is stored, in time order.
   */
  lemma DailyViewContents(apts: seq<Appointment>, date: string)
    ensures DailyView(apts, date).None?
        <==> exists a | a in apts && a.date == date :: TimeToMinutes(a.time).None?
    ensures DailyView(apts, date).Some? ==>
              && multiset(DailyView(apts, date).value.appointments) == multiset(AppointmentsOn(apts, date))
              && SortedByTime(DailyView(apts, date).value.appointments)
  {
    var day := AppointmentsOn(apts, date);
    ParseAllReads(day);
    forall a ensures a in day <==> a in apts && a.date == date {
      AppointmentsOnCounts(apts, date, a);
    }
    if ParseAll(day).Some? {
      var bs := SortByStart(ParseAll(day).value);
      SortByStartSorts(ParseAll(day).value);
      assert forall b | b in bs :: b in multiset(ParseAll(day).value);
      SortedBookingsGiveSortedTimes(bs);
    }
  }

  // The daily window

  lemma {:induction false} EarliestStartIsMinimum(bs: seq<Booking>)
    ensures EarliestStart(bs) <= BusinessStart
    ensures forall b | b in bs :: EarliestStart(bs) <= b.start
    ensures EarliestStart(bs) == BusinessStart || exists b | b in bs :: EarliestStart(bs) == b.start
    decreases |bs|
  {
    if bs != [] {
      var front := bs[..|bs| - 1];
      EarliestStartIsMinimum(front);
      assert bs == front + [bs[|bs| - 1]];
      assert forall b | b in bs :: b in front || b == bs[|bs| - 1];
      if EarliestStart(bs) != BusinessStart && EarliestStart(bs) != bs[|bs| - 1].start {
        var b :| b in front && EarliestStart(front) == b.start;
        assert b in bs;
      }
    }
  }

  lemma {:induction false} LatestEndIsMaximum(bs: seq<Booking>)
    ensures LatestEnd(bs) >= BusinessEnd
    ensures forall b | b in bs :: LatestEnd(bs) >= b.End()
    ensures LatestEnd(bs) == BusinessEnd || exists b | b in bs :: LatestEnd(bs) == b.End()
    decreases |bs|
  {
    if bs != [] {
      var front := bs[..|bs| - 1];
      LatestEndIsMaximum(front);
      assert bs == front + [bs[|bs| - 1]];
      assert forall b | b in bs :: b in front || b == bs[|bs| - 1];
      if LatestEnd(bs) != BusinessEnd && LatestEnd(bs) != bs[|bs| - 1].End() {
        var b :| b in front && LatestEnd(front) == b.End();
        assert b in bs;
      }
    }
  }

  /**
   * The window is on the 15-minute grid, covers at least 10am to 6pm
   * and every booking's end, and starts at the earliest start rounded
   * down when no start is negative (C++ division rounds a negative
   * start up toward zero instead).
   */
  lemma WindowBounds(bs: seq<Booking>)
    ensures WindowEnd(bs) % Interval == 0 && WindowEnd(bs) >= BusinessEnd
    ensures forall b | b in bs :: b.End() <= WindowEnd(bs)
    ensures WindowEnd(bs) - LatestEnd(bs) < Interval
    ensures WindowStart(bs) % Interval == 0 && WindowStart(bs) <= BusinessStart
    ensures EarliestStart(bs) >= 0 ==>
              && 0 <= EarliestStart(bs) - WindowStart(bs) < Interval
              && forall b | b in bs :: WindowStart(bs) <= b.start
  {
    EarliestStartIsMinimum(bs);
    LatestEndIsMaximum(bs);
  }

  // The rows of the daily view

  /** The booked rows of a walk, in order. */
  function BookedApts(segs: seq<Segment>): seq<Appointment>
    decreases |segs|
  {
    if segs == [] then []
    else (if segs[0].Booked? then [segs[0].apt] else []) + BookedApts(segs[1..])
  }

  lemma {:induction false} BookedAptsAppend(x: seq<Segment>, y: seq<Segment>)
    ensures BookedApts(x + y) == BookedApts(x) + BookedApts(y)
    decreases |x|
  {
    if x == [] {
      assert x + y == y;
    } else {
      assert (x + y)[0] == x[0] && (x + y)[1..] == x[1..] + y;
      BookedAptsAppend(x[1..], y);
      AppendAssoc(if x[0].Booked? then [x[0].apt] else [], BookedApts(x[1..]), BookedApts(y));
    }
  }

  /** The walk shows each booking exactly once, in order. */
  lemma {:induction false} WalkBookedApts(bs: seq<Booking>, cur: int, end: int)
    ensures BookedApts(Walk(bs, cur, end)) == AptsOf(bs)
    decreases |bs|
  {
    if bs == [] {
      assert BookedApts(Gap(cur, end)) == [] by {
        if cur < end {
          assert Gap(cur, end)[1..] == [];
        }
      }
    } else {
      var g := Gap(cur, bs[0].start);
      var row := [BookedRow(bs[0])];
      WalkBookedApts(bs[1..], bs[0].End(), end);
      BookedAptsAppend(g + row, Walk(bs[1..], bs[0].End(), end));
      BookedAptsAppend(g, row);
      assert BookedApts(g) == [] by {
        if cur < bs[0].start {
          assert g[1..] == [];
        }
      }
      assert row[1..] == [];
    }
  }

  /**
   * Every row of the walk is either a booking with its own range,
   * flagged outside hours exactly when it starts before 10am or at 6pm
   * or later, or a non-empty free range.
   */
  lemma {:induction false} WalkRowShapes(bs: seq<Booking>, cur: int, end: int)
    ensures forall s | s in Walk(bs, cur, end) ::
              if s.Booked? then exists b | b in bs :: s == Booked(b.apt, b.start, b.End(), OutsideHours(b.start))
              else s.from < s.to
    decreases |bs|
  {
    if bs != [] {
      var g := Gap(cur, bs[0].start);
      var rest := Walk(bs[1..], bs[0].End(), end);
      WalkRowShapes(bs[1..], bs[0].End(), end);
      assert Walk(bs, cur, end) == g + [BookedRow(bs[0])] + rest;
      forall s | s in Walk(bs, cur, end)
        ensures if s.Booked? then exists b | b in bs :: s == Booked(b.apt, b.start, b.End(), OutsideHours(b.start))
                else s.from < s.to
      {
        if s in rest && s.Booked? {
          var b :| b in bs[1..] && s == Booked(b.apt, b.start, b.End(), OutsideHours(b.start));
          assert b in bs;
        } else if s == BookedRow(bs[0]) {
          assert bs[0] in bs;
        }
      }
    }
  }

  /** `segs` lays the window [a, b) out end to end, each row non-empty. */
  predicate Tiles(segs: seq<Segment>, a: int, b: int)
    decreases |segs|
  {
    if segs == [] then a == b
    else segs[0].from == a && segs[0].from < segs[0].to && Tiles(segs[1..], segs[0].to, b)
  }

  lemma {:induction false} TilesAppend(x: seq<Segment>, y: seq<Segment>, a: int, m: int, b: int)
    requires Tiles(x, a, m) && Tiles(y, m, b)
    ensures Tiles(x + y, a, b)
    decreases |x|
  {
    if x == [] {
      assert x + y == y;
    } else {
      assert (x + y)[1..] == x[1..] + y;
      TilesAppend(x[1..], y, x[0].to, m, b);
    }
  }

  /** Each booking ends no later than the next one starts, and has positive length. */
  predicate Chained(bs: seq<Booking>)
  {
    && (forall b | b in bs :: b.apt.duration > 0)
    && forall i | 0 <= i < |bs| - 1 :: bs[i].End() <= bs[i + 1].start
  }

  /**
   * With bookings of positive length that follow one another, a walk
   * from a cursor no later than the first start to an end no earlier
   * than the last end tiles that range.
   */
  lemma {:induction false} WalkTiles(bs: seq<Booking>, cur: int, end: int)
    requires Chained(bs)
    requires bs != [] ==> cur <= bs[0].start && bs[|bs| - 1].End() <= end
    requires bs == [] ==> cur <= end
    ensures Tiles(Walk(bs, cur, end), cur, end)
    decreases |bs|
  {
    if bs == [] {
      if cur < end {
        assert Gap(cur, end)[1..] == [];
      }
    } else {
      var b := bs[0];
      var g := Gap(cur, b.start);
      if cur < b.start {
        assert g[1..] == [];
      }
      assert Tiles([BookedRow(b)], b.start, b.End()) by {
        assert [BookedRow(b)][1..] == [];
      }
      if |bs| > 1 {
        assert bs[1..][0] == bs[1];
        assert bs[1..][|bs[1..]| - 1] == bs[|bs| - 1];
      }
      assert Chained(bs[1..]) by {
        assert forall x | x in bs[1..] :: x in bs;
        forall i | 0 <= i < |bs[1..]| - 1 ensures bs[1..][i].End() <= bs[1..][i + 1].start {
          assert bs[1..][i] == bs[i + 1] && bs[1..][i + 1] == bs[i + 2];
        }
      }
      WalkTiles(bs[1..], b.End(), end);
      TilesAppend(g, [BookedRow(b)], cur, b.start, b.End());
      TilesAppend(g + [BookedRow(b)], Walk(bs[1..], b.End(), end), cur, b.End(), end);
    }
  }

  /** Sorted bookings of positive length that do not overlap follow one another. */
  lemma NonOverlappingChain(bs: seq<Booking>)
    requires SortedByStart(bs)
    requires forall b | b in bs :: b.apt.duration > 0
    requires forall i, j | 0 <= i < j < |bs| :: !IntervalsOverlap(bs[i].start, bs[i].End(), bs[j].start, bs[j].End())
    ensures Chained(bs)
  {
    forall i | 0 <= i < |bs| - 1 ensures bs[i].End() <= bs[i + 1].start {
      assert bs[i + 1] in bs;
      assert !IntervalsOverlap(bs[i].start, bs[i].End(), bs[i + 1].start, bs[i + 1].End());
    }
  }

  /**
   * When the bookings of the day have positive lengths, no negative
   * start and do not overlap one another, the rows of the daily view lay
   * its whole window out with no gap and no overlap.
   */
  lemma DailyViewTiles(bs: seq<Booking>)
    requires SortedByStart(bs)
    requires forall b | b in bs :: b.apt.duration > 0 && b.start >= 0
    requires forall i, j | 0 <= i < j < |bs| :: !IntervalsOverlap(bs[i].start, bs[i].End(), bs[j].start, bs[j].End())
    ensures Tiles(Walk(bs, WindowStart(bs), WindowEnd(bs)), WindowStart(bs), WindowEnd(bs))
  {
    NonOverlappingChain(bs);
    EarliestStartIsMinimum(bs);
    WindowBounds(bs);
    if bs != [] {
      assert bs[0] in bs && bs[|bs| - 1] in bs;
    }
    WalkTiles(bs, WindowStart(bs), WindowEnd(bs));
  }

  // The weekly entries

  /**
   * The listing holds the entries in order up to the first one whose
   * sort threw, and is complete exactly when none did.
   */
  lemma {:induction false} ListEntriesPrefix(entries: seq<Option<DayEntry>>)
    ensures |ListEntries(entries).days| <= |entries|
    ensures ListEntries(entries).complete <==> |ListEntries(entries).days| == |entries|
    ensures forall k | 0 <= k < |ListEntries(entries).days| :: entries[k] == Some(ListEntries(entries).days[k])
    ensures !ListEntries(entries).complete ==> entries[|ListEntries(entries).days|].None?
    decreases |entries|
  {
    if entries != [] && entries[0].Some? {
      var rest := entries[1..];
      ListEntriesPrefix(rest);
      var w := ListEntries(entries);
      assert w.days == [entries[0].value] + ListEntries(rest).days;
      forall k | 0 < k < |w.days| ensures entries[k] == Some(w.days[k]) {
        assert entries[k] == rest[k - 1];
      }
      if !w.complete {
        assert entries[|w.days|] == rest[|ListEntries(rest).days|];
      }
    }
  }

  /**
   * Every day listed is the `k`-th day from the start; the listing
   * stops early only at a day whose sort threw, and is complete exactly
   * when it lists all seven days.
   */
  lemma WeekViewEntries(apts: seq<Appointment>, start: string, addDays: (string, int) -> string)
    ensures |WeekView(apts, start, addDays).days| <= 7
    ensures WeekView(apts, start, addDays).complete <==> |WeekView(apts, start, addDays).days| == 7
    ensures forall k | 0 <= k < |WeekView(apts, start, addDays).days| ::
              DayEntryOf(apts, addDays(start, k)) == Some(WeekView(apts, start, addDays).days[k])
    ensures !WeekView(apts, start, addDays).complete ==>
              DayEntryOf(apts, addDays(start, |WeekView(apts, start, addDays).days|)).None?
  {
    var entries := WeekEntries(apts, start, addDays);
    ListEntriesPrefix(entries);
  }

  /** What one day entry of the weekly view says about the collection. */
  lemma DayEntryMeaning(apts: seq<Appointment>, date: string)
    ensures DayEntryOf(apts, date).None? <==>
              |AppointmentsOn(apts, date)| >= 2 && exists a | a in apts && a.date == date :: TimeToMinutes(a.time).None?
    ensures DayEntryOf(apts, date) == Some(NoAppointments(date)) <==> forall a | a in apts :: a.date != date
    ensures forall l | DayEntryOf(apts, date) == Some(Listed(date, l)) ::
              && multiset(l) == multiset(AppointmentsOn(apts, date))
              && (|l| >= 2 ==> SortedByTime(l))
    ensures DayEntryOf(apts, date).Some? ==> DayEntryOf(apts, date).value.date == date
  {
    var day := AppointmentsOn(apts, date);
    ParseAllReads(day);
    forall a ensures a in day <==> a in apts && a.date == date {
      AppointmentsOnCounts(apts, date, a);
    }
    if |day| >= 2 && ParseAll(day).Some? {
      var bs := SortByStart(ParseAll(day).value);
      SortByStartSorts(ParseAll(day).value);
      assert forall b | b in bs :: b in multiset(ParseAll(day).value);
      SortedBookingsGiveSortedTimes(bs);
      assert |AptsOf(bs)| >= 2 by {
        assert |multiset(AptsOf(bs))| == |multiset(day)|;
      }
    }
  }
}
