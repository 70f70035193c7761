/**
 * The commands of the booking shell (main.cpp:450-757): `add`, `del`,
 * `reschedule` and `display`, each as a function from the collection and
 * the words after the command to an outcome and the new collection, and
 * a `Scheduler` object whose methods run them on its state.
 *
 * What a command reads from outside is handed in as an `Env`: the date
 * of today, the minute of the day, the Monday of this week, the calendar
 * step `addDaysToDate` and the answer typed at the "no slot" dialog.
 * The words are the command's arguments already split at white space.
 */
module Scheduling {
  import opened Wrappers
  import opened TimeText
  import opened Appointments
  import opened SlotFinder
  import opened Views

  /** The readings of the world one command uses. */
  datatype Env = Env(today: string, now: nat, weekStart: string, addDays: (string, int) -> string, choice: string)

  /** `getNextDate` (main.cpp:116-130): the calendar step of one day. */
  function NextDate(env: Env, date: string): string
  {
    env.addDays(date, 1)
  }

  /** A command's outcome together with the collection it leaves. */
  datatype Step<O> = Step(outcome: O, appointments: seq<Appointment>)

  // Finding a booking by name and time (main.cpp:592-603, 624-632)

  /** The position of the first booking with this name and time, or |apts| when there is none. */
  function FirstMatch(apts: seq<Appointment>, name: string, time: string): (k: nat)
    ensures k <= |apts|
    ensures k < |apts| ==> apts[k].name == name && apts[k].time == time
    ensures forall i | 0 <= i < k :: !(apts[i].name == name && apts[i].time == time)
    decreases |apts|
  {
    if apts == [] then 0
    else if apts[0].name == name && apts[0].time == time then 0
    else 1 + FirstMatch(apts[1..], name, time)
  }

  /** The search loop of `del` and the `std::find_if` of `reschedule`. */
  method FindAppointment(apts: seq<Appointment>, name: string, time: string) returns (k: nat)
    ensures k == FirstMatch(apts, name, time)
  {
    k := 0;
    while k < |apts| && !(apts[k].name == name && apts[k].time == time)
      invariant k <= |apts|
      invariant FirstMatch(apts, name, time) == k + FirstMatch(apts[k..], name, time)
    {
      assert apts[k..][1..] == apts[k + 1..];
      k := k + 1;
    }
  }

  /** The collection without its `k`-th booking (`erase`). */
  function Without(apts: seq<Appointment>, k: nat): seq<Appointment>
    requires k < |apts|
  {
    apts[..k] + apts[k + 1..]
  }

  // Choosing a time with "next" (main.cpp:518-555, 643-685)

  /** Where the "next" search put the booking, or why it did not. */
  datatype Placement =
    | Placed(date: string, time: string)
    | NoSlotOn(date: string)
    | NoOverrideSlot
    | Cancelled
    | SearchThrew

  /**
   * The "next" search on `date` and, when it finds nothing and the
   * dialog is offered, the operator's answer: "1" searches the next day,
   * "2" searches again with the admin override, anything else cancels.
   */
  function NextPlacement(apts: seq<Appointment>, date: string, duration: int, env: Env, offerDialog: bool): Placement
  {
    var first := FindSlot(apts, date, duration, false, env.today, env.now);
    if first.TimeError? then SearchThrew
    else if first.Found? then Placed(date, MinutesToTime(first.start))
    else if !offerDialog then NoSlotOn(date)
    else if env.choice == "1" then
      var nextDay := NextDate(env, date);
      var second := FindSlot(apts, nextDay, duration, false, env.today, env.now);
      if second.TimeError? then SearchThrew
      else if second.Found? then Placed(nextDay, MinutesToTime(second.start))
      else NoSlotOn(nextDay)
    else if env.choice == "2" then
      var late := FindSlot(apts, date, duration, true, env.today, env.now);
      if late.TimeError? then SearchThrew
      else if late.Found? then Placed(date, MinutesToTime(late.start))
      else NoOverrideSlot
    else Cancelled
  }

  /** The search and the dialog as the program runs them. */
  method PlaceNext(apts: seq<Appointment>, date: string, duration: int, env: Env, offerDialog: bool)
    returns (p: Placement)
    ensures p == NextPlacement(apts, date, duration, env, offerDialog)
  {
    var first := FindNextAvailableTime(apts, date, duration, false, env.today, env.now);
    if first.TimeError? {
      return SearchThrew;
    }
    if first.Found? {
      return Placed(date, MinutesToTime(first.start));
    }
    if !offerDialog {
      return NoSlotOn(date);
    }
    if env.choice == "1" {
      var nextDay := NextDate(env, date);
      var second := FindNextAvailableTime(apts, nextDay, duration, false, env.today, env.now);
      if second.TimeError? {
        return SearchThrew;
      }
      if second.Found? {
        return Placed(nextDay, MinutesToTime(second.start));
      }
      return NoSlotOn(nextDay);
    } else if env.choice == "2" {
      var late := FindNextAvailableTime(apts, date, duration, true, env.today, env.now);
      if late.TimeError? {
        return SearchThrew;
      }
      if late.Found? {
        return Placed(date, MinutesToTime(late.start));
      }
      return NoOverrideSlot;
    }
    return Cancelled;
  }

  // add (main.cpp:488-579)

  datatype AddOutcome =
    | AddUsage
    | InvalidService
    | NotPlaced(placement: Placement)
    | AddOverlaps(existing: Appointment)
    | Added(apt: Appointment)
    | AddThrew

  /**
   * `add <name> <time> <service> [date]`: the service gives the
   * duration, the date defaults to today, "next" asks the slot search
   * (with the dialog only when the date is today) and the booking is
   * kept when the overlap loop finds nothing.
   */
  function AddCommand(apts: seq<Appointment>, words: seq<string>, env: Env): AddOutcome
  {
    if |words| < 3 then AddUsage
    else
      var duration := ParseServiceDuration(words[2]);
      if duration <= 0 then InvalidService
      else
        var date := if |words| > 3 then words[3] else env.today;
        var placement := if words[1] == "next" then NextPlacement(apts, date, duration, env, date == env.today)
                         else Placed(date, words[1]);
        AddAt(apts, words[0], words[2], duration, placement)
  }

  /** The end of `add` once the time is chosen: the overlap loop decides. */
  function AddAt(apts: seq<Appointment>, name: string, service: string, duration: int, placement: Placement): AddOutcome
  {
    if placement.SearchThrew? then AddThrew
    else if !placement.Placed? then NotPlaced(placement)
    else
      var apt := Appointment(name, placement.time, placement.date, service, duration);
      match ConflictScan(apt, apts)
        case Clear => Added(apt)
        case Conflict(e) => AddOverlaps(e)
        case Unreadable => AddThrew
  }

  lemma AddAtShape(apts: seq<Appointment>, name: string, service: string, duration: int, placement: Placement)
    ensures var o := AddAt(apts, name, service, duration, placement);
      o.Added? ==> placement.Placed? && o.apt == Appointment(name, placement.time, placement.date, service, duration)
                   && ConflictScan(o.apt, apts) == Clear
    ensures placement.Placed? ==>
      var apt := Appointment(name, placement.time, placement.date, service, duration);
      ConflictScan(apt, apts) == Clear ==> AddAt(apts, name, service, duration, placement) == Added(apt)
  {
  }

  /** The collection after `add`: the new booking appended when it was added. */
  function AfterAdd(apts: seq<Appointment>, o: AddOutcome): seq<Appointment>
  {
    if o.Added? then apts + [o.apt] else apts
  }

  // del (main.cpp:581-609)

  datatype DelOutcome = DelUsage | Deleted(apt: Appointment) | DelNotFound

  /** `del <name> <time>`: the first booking with that name and time is erased. */
  function DelCommand(apts: seq<Appointment>, words: seq<string>): Step<DelOutcome>
  {
    if |words| < 2 then Step(DelUsage, apts)
    else
      var k := FirstMatch(apts, words[0], words[1]);
      if k == |apts| then Step(DelNotFound, apts)
      else Step(Deleted(apts[k]), Without(apts, k))
  }

  // reschedule (main.cpp:611-714)

  datatype RescheduleOutcome =
    | RescheduleUsage
    | RescheduleNotFound
    | Moved(original: Appointment, rescheduled: Appointment)
    | MoveNotPlaced(placement: Placement)
    | MoveOverlaps(existing: Appointment)
    | MoveThrew

  /**
   * `reschedule <name> <oldTime> <newTime> [newDate]`. The booking is
   * erased, a new time is chosen ("next" always offers the dialog) and
   * the moved booking is appended; a missing slot, a cancel or an
   * overlap appends the original again instead. When an exception ends
   * the command, the program as written leaves the original erased
   * (`restoreOnError` false); the corrected command appends it again
   * like the other failures.
   */
  function Reschedule(apts: seq<Appointment>, words: seq<string>, env: Env, restoreOnError: bool): Step<RescheduleOutcome>
  {
    if |words| < 3 then Step(RescheduleUsage, apts)
    else
      var k := FirstMatch(apts, words[0], words[1]);
      if k == |apts| then Step(RescheduleNotFound, apts)
      else
        var original := apts[k];
        var rest := Without(apts, k);
        var date := if |words| > 3 then words[3] else original.date;
        var onError := if restoreOnError then rest + [original] else rest;
        if words[2] == "next" then
          MoveToPlacement(rest, original, NextPlacement(rest, date, original.duration, env, true), onError)
        else
          var moved := original.(time := words[2], date := date);
          MoveIfClear(rest, original, moved, ConflictScan(moved, rest), onError)
  }

  /** The end of `reschedule next`: the moved booking, the original again, or `onError`. */
  function MoveToPlacement(rest: seq<Appointment>, original: Appointment, p: Placement, onError: seq<Appointment>)
    : Step<RescheduleOutcome>
  {
    if p.SearchThrew? then Step(MoveThrew, onError)
    else if p.Placed? then
      var moved := original.(time := p.time, date := p.date);
      Step(Moved(original, moved), rest + [moved])
    else Step(MoveNotPlaced(p), rest + [original])
  }

  /** The end of `reschedule` to an explicit time, after the overlap loop. */
  function MoveIfClear(rest: seq<Appointment>, original: Appointment, moved: Appointment, scan: ScanResult,
                       onError: seq<Appointment>): Step<RescheduleOutcome>
  {
    match scan
      case Clear => Step(Moved(original, moved), rest + [moved])
      case Conflict(e) => Step(MoveOverlaps(e), rest + [original])
      case Unreadable => Step(MoveThrew, onError)
  }

  /** `reschedule` as main.cpp:611-714 is written. */
  function RescheduleAsWritten(apts: seq<Appointment>, words: seq<string>, env: Env): Step<RescheduleOutcome>
  {
    Reschedule(apts, words, env, false)
  }

  /** `reschedule` with the original appended again when an exception ends it. */
  function RescheduleCommand(apts: seq<Appointment>, words: seq<string>, env: Env): Step<RescheduleOutcome>
  {
    Reschedule(apts, words, env, true)
  }

  // display (main.cpp:720-750) and the week it remembers

  /** What `display` shows: a day (None when a time throws), a week, or the usage error. */
  datatype Shown = DayShown(view: Option<DailySchedule>) | WeekShown(listing: WeekListing) | InvalidDisplay

  /**
   * The week `display weekly` shows, from the remembered Monday
   * (initialised to this week's on first use): "next" and "prev" or
   * "previous" move it by seven days, no word returns to this week, any
   * other word keeps it.
   */
  function WeekAnchor(anchor: Option<string>, navigation: string, env: Env): string
  {
    var current := anchor.GetOr(env.weekStart);
    if navigation == "next" then env.addDays(current, 7)
    else if navigation == "prev" || navigation == "previous" then env.addDays(current, -7)
    else if navigation == "" then env.weekStart
    else current
  }

  /** `display [daily | weekly [next|prev] | <date>]`, with the remembered Monday before and after. */
  function DisplayCommand(apts: seq<Appointment>, anchor: Option<string>, words: seq<string>, env: Env): (Shown, Option<string>)
  {
    var viewType := if |words| > 0 then words[0] else "";
    var navigation := if |words| > 1 then words[1] else "";
    if viewType == "" || viewType == "daily" then (DayShown(DailyView(apts, env.today)), anchor)
    else if viewType == "weekly" || viewType == "week" then
      var week := WeekAnchor(anchor, navigation, env);
      (WeekShown(WeekView(apts, week, env.addDays)), Some(week))
    else if '-' in viewType then (DayShown(DailyView(apts, viewType)), anchor)
    else (InvalidDisplay, anchor)
  }

  /** `getWeekStart` (main.cpp:158-170): days back from weekday `wday` (0 is Sunday) to Monday. */
  function DaysToMonday(wday: nat): nat
    requires wday < 7
  {
    if wday == 0 then 6 else wday - 1
  }

  // What "next" promises

  /**
   * A placement is the clock text of a slot the search found on the
   * date asked for, or, after answer "1", on the next day.
   */
  lemma PlacedIsFoundSlot(apts: seq<Appointment>, date: string, duration: int, env: Env, offerDialog: bool)
    requires NextPlacement(apts, date, duration, env, offerDialog).Placed?
    ensures var p := NextPlacement(apts, date, duration, env, offerDialog);
      && (p.date == date || (offerDialog && env.choice == "1" && p.date == NextDate(env, date)))
      && exists s: nat, adminOverride: bool ::
           FindSlot(apts, p.date, duration, adminOverride, env.today, env.now) == Found(s) && p.time == MinutesToTime(s)
  {
    var first := FindSlot(apts, date, duration, false, env.today, env.now);
    var nextDay := NextDate(env, date);
    var second := FindSlot(apts, nextDay, duration, false, env.today, env.now);
    var late := FindSlot(apts, date, duration, true, env.today, env.now);
    if first.Found? {
      assert FindSlot(apts, date, duration, false, env.today, env.now) == Found(first.start);
    } else if env.choice == "1" {
      assert FindSlot(apts, nextDay, duration, false, env.today, env.now) == Found(second.start);
    } else {
      assert FindSlot(apts, date, duration, true, env.today, env.now) == Found(late.start);
    }
  }

  /**
   * A booking of positive length put where "next" placed it overlaps no
   * booking of the collection searched, so the overlap loop after it
   * always passes.
   */
  lemma PlacedSlotIsClear(apts: seq<Appointment>, date: string, duration: int, env: Env, offerDialog: bool,
                          name: string, service: string)
    requires duration > 0
    requires NextPlacement(apts, date, duration, env, offerDialog).Placed?
    ensures var p := NextPlacement(apts, date, duration, env, offerDialog);
      ConflictScan(Appointment(name, p.time, p.date, service, duration), apts) == Clear
  {
    var p := NextPlacement(apts, date, duration, env, offerDialog);
    PlacedIsFoundSlot(apts, date, duration, env, offerDialog);
    var s: nat, adminOverride: bool :| FindSlot(apts, p.date, duration, adminOverride, env.today, env.now) == Found(s)
                                     && p.time == MinutesToTime(s);
    FoundSlotPassesScan(apts, p.date, duration, adminOverride, env.today, env.now, s,
                        Appointment(name, p.time, p.date, service, duration));
  }

  // What add promises

  /** Every booking has a positive length, as `add` demands of new ones. */
  predicate PositiveDurations(apts: seq<Appointment>)
  {
    forall a | a in apts :: a.duration > 0
  }

  /**
   * A booking `add` accepts carries the name and service typed, the
   * service's positive duration, the time and date typed (the date
   * defaulting to today) unless "next" chose them, and overlaps no
   * existing booking.
   */
  lemma AddedBooking(apts: seq<Appointment>, words: seq<string>, env: Env, apt: Appointment)
    requires AddCommand(apts, words, env) == Added(apt)
    ensures |words| >= 3 && apt.name == words[0] && apt.service == words[2]
    ensures apt.duration == ParseServiceDuration(words[2]) && apt.duration > 0
    ensures words[1] != "next" ==> apt.time == words[1] && apt.date == (if |words| > 3 then words[3] else env.today)
    ensures forall e | e in apts :: Overlaps(apt, e) == Some(false)
  {
    var duration := ParseServiceDuration(words[2]);
    var date := if |words| > 3 then words[3] else env.today;
    var placement := if words[1] == "next" then NextPlacement(apts, date, duration, env, date == env.today)
                     else Placed(date, words[1]);
    assert AddCommand(apts, words, env) == AddAt(apts, words[0], words[2], duration, placement);
    AddAtShape(apts, words[0], words[2], duration, placement);
    ClearIffNoOverlap(apt, apts);
  }

  /**
   * With "next" the overlap loop never reports a conflict: a placed
   * booking is always added.
   */
  lemma AddNextNeverOverlaps(apts: seq<Appointment>, words: seq<string>, env: Env)
    requires |words| >= 3 && words[1] == "next"
    ensures !AddCommand(apts, words, env).AddOverlaps?
    ensures var duration := ParseServiceDuration(words[2]);
            var date := if |words| > 3 then words[3] else env.today;
            (duration > 0 && NextPlacement(apts, date, duration, env, date == env.today).Placed?) ==> AddCommand(apts, words, env).Added?
  {
    var duration := ParseServiceDuration(words[2]);
    var date := if |words| > 3 then words[3] else env.today;
    if duration > 0 && NextPlacement(apts, date, duration, env, date == env.today).Placed? {
      PlacedSlotIsClear(apts, date, duration, env, date == env.today, words[0], words[2]);
    }
  }

  /**
   * `add` keeps the collection free of double bookings and of bookings
   * without a positive length, and changes it only by appending the
   * booking it reports.
   */
  lemma AddKeepsSchedule(apts: seq<Appointment>, words: seq<string>, env: Env)
    requires NoDoubleBooking(apts) && PositiveDurations(apts)
    ensures var after := AfterAdd(apts, AddCommand(apts, words, env));
      NoDoubleBooking(after) && PositiveDurations(after)
  {
    var o := AddCommand(apts, words, env);
    if o.Added? {
      AddedBooking(apts, words, env, o.apt);
      ClearIffNoOverlap(o.apt, apts);
      AppendClearKeepsNoDoubleBooking(apts, o.apt);
      assert forall a | a in apts + [o.apt] :: a in apts || a == o.apt;
    }
  }

  // What del promises

  /**
   * `del` fails to find a booking exactly when none has that name and
   * time; otherwise it erases one booking with that name and time, the
   * first, and nothing else.
   */
  lemma DelRemovesFirstMatch(apts: seq<Appointment>, words: seq<string>)
    ensures var r := DelCommand(apts, words);
      && (r.outcome.DelNotFound? <==> |words| >= 2 && forall a | a in apts :: !(a.name == words[0] && a.time == words[1]))
      && (r.outcome.Deleted? ==>
            && r.outcome.apt.name == words[0] && r.outcome.apt.time == words[1]
            && |r.appointments| == |apts| - 1
            && multiset(r.appointments) + multiset{r.outcome.apt} == multiset(apts)
            && exists k | 0 <= k < |apts| ::
                 && apts[k] == r.outcome.apt && r.appointments == apts[..k] + apts[k + 1..]
                 && forall i | 0 <= i < k :: !(apts[i].name == words[0] && apts[i].time == words[1]))
      && (!r.outcome.Deleted? ==> r.appointments == apts)
  {
    if |words| >= 2 {
      var k := FirstMatch(apts, words[0], words[1]);
      if k < |apts| {
        assert apts == apts[..k] + [apts[k]] + apts[k + 1..];
        assert DelCommand(apts, words).appointments == apts[..k] + apts[k + 1..];
      } else {
        forall a | a in apts ensures !(a.name == words[0] && a.time == words[1]) {
          var i :| 0 <= i < |apts| && apts[i] == a;
        }
      }
    }
  }

  /** `del` keeps the collection free of double bookings and of bookings without a positive length. */
  lemma DelKeepsSchedule(apts: seq<Appointment>, words: seq<string>)
    requires NoDoubleBooking(apts) && PositiveDurations(apts)
    ensures NoDoubleBooking(DelCommand(apts, words).appointments)
    ensures PositiveDurations(DelCommand(apts, words).appointments)
  {
    if |words| >= 2 {
      var k := FirstMatch(apts, words[0], words[1]);
      if k < |apts| {
        RemoveKeepsNoDoubleBooking(apts, k);
        WithoutIsIn(apts, k);
      }
    }
  }

  lemma WithoutIsIn(apts: seq<Appointment>, k: nat)
    requires k < |apts|
    ensures forall a | a in Without(apts, k) :: a in apts
    ensures multiset(Without(apts, k)) + multiset{apts[k]} == multiset(apts)
  {
    assert apts == apts[..k] + [apts[k]] + apts[k + 1..];
  }

  // What reschedule promises

  /**
   * How `reschedule` ends once it found the booking: the moved booking
   * appended after the others, or the original appended again, or (as
   * written, after an exception) neither.
   */
  lemma RescheduleShape(apts: seq<Appointment>, words: seq<string>, env: Env, restoreOnError: bool)
    requires |words| >= 3 && FirstMatch(apts, words[0], words[1]) < |apts|
    ensures var k := FirstMatch(apts, words[0], words[1]);
            var r := Reschedule(apts, words, env, restoreOnError);
      && (r.outcome.Moved? ==>
            && r.outcome.original == apts[k]
            && r.outcome.rescheduled == apts[k].(time := r.outcome.rescheduled.time, date := r.outcome.rescheduled.date)
            && r.appointments == Without(apts, k) + [r.outcome.rescheduled])
      && (r.outcome.MoveThrew? ==> r.appointments == if restoreOnError then Without(apts, k) + [apts[k]] else Without(apts, k))
      && (!r.outcome.Moved? && !r.outcome.MoveThrew? ==> r.appointments == Without(apts, k) + [apts[k]])
  {
    var k := FirstMatch(apts, words[0], words[1]);
    var original := apts[k];
    var rest := Without(apts, k);
    var date := if |words| > 3 then words[3] else original.date;
    var onError := if restoreOnError then rest + [original] else rest;
    var r := Reschedule(apts, words, env, restoreOnError);
    if words[2] == "next" {
      var p := NextPlacement(rest, date, original.duration, env, true);
      assert r == MoveToPlacement(rest, original, p, onError);
      MoveToPlacementShape(rest, original, p, onError);
    } else {
      var moved := original.(time := words[2], date := date);
      var scan := ConflictScan(moved, rest);
      assert r == MoveIfClear(rest, original, moved, scan, onError);
      MoveIfClearShape(rest, original, moved, scan, onError);
    }
  }

  lemma MoveToPlacementShape(rest: seq<Appointment>, original: Appointment, p: Placement, onError: seq<Appointment>)
    ensures var r := MoveToPlacement(rest, original, p, onError);
      && (r.outcome.Moved? ==>
            && p.Placed? && r.outcome.original == original
            && r.outcome.rescheduled == original.(time := p.time, date := p.date)
            && r.appointments == rest + [r.outcome.rescheduled])
      && (r.outcome.MoveThrew? ==> r.appointments == onError)
      && (!r.outcome.Moved? && !r.outcome.MoveThrew? ==> r.appointments == rest + [original])
  {
  }

  lemma MoveIfClearShape(rest: seq<Appointment>, original: Appointment, moved: Appointment, scan: ScanResult,
                         onError: seq<Appointment>)
    ensures var r := MoveIfClear(rest, original, moved, scan, onError);
      && (r.outcome.Moved? ==>
            && scan == Clear && r.outcome.original == original && r.outcome.rescheduled == moved
            && r.appointments == rest + [moved])
      && (r.outcome.MoveThrew? ==> r.appointments == onError)
      && (!r.outcome.Moved? && !r.outcome.MoveThrew? ==> r.appointments == rest + [original])
  {
  }

  /**
   * The corrected `reschedule` never loses a booking: it moves the one
   * with that name and time, keeping its name, service and duration, or
   * it keeps every booking (perhaps in another order).
   */
  lemma RescheduleKeepsBookings(apts: seq<Appointment>, words: seq<string>, env: Env)
    ensures var r := RescheduleCommand(apts, words, env);
      if r.outcome.Moved? then
        && r.outcome.original in apts
        && r.outcome.original.name == words[0] && r.outcome.original.time == words[1]
        && r.outcome.rescheduled == r.outcome.original.(time := r.outcome.rescheduled.time, date := r.outcome.rescheduled.date)
        && multiset(r.appointments) == multiset(apts) - multiset{r.outcome.original} + multiset{r.outcome.rescheduled}
      else multiset(r.appointments) == multiset(apts)
  {
    if |words| >= 3 && FirstMatch(apts, words[0], words[1]) < |apts| {
      var k := FirstMatch(apts, words[0], words[1]);
      RescheduleShape(apts, words, env, true);
      WithoutIsIn(apts, k);
    }
  }

  /** A booking "next" placed for the found booking, and the overlap check it passes. */
  lemma MovedIsClear(apts: seq<Appointment>, words: seq<string>, env: Env)
    requires |words| >= 3 && FirstMatch(apts, words[0], words[1]) < |apts|
    requires apts[FirstMatch(apts, words[0], words[1])].duration > 0
    requires RescheduleCommand(apts, words, env).outcome.Moved?
    ensures var k := FirstMatch(apts, words[0], words[1]);
      ConflictScan(RescheduleCommand(apts, words, env).outcome.rescheduled, Without(apts, k)) == Clear
  {
    var k := FirstMatch(apts, words[0], words[1]);
    var original := apts[k];
    var rest := Without(apts, k);
    var date := if |words| > 3 then words[3] else original.date;
    var r := RescheduleCommand(apts, words, env);
    if words[2] == "next" {
      var p := NextPlacement(rest, date, original.duration, env, true);
      assert r == MoveToPlacement(rest, original, p, rest + [original]);
      MoveToPlacementShape(rest, original, p, rest + [original]);
      PlacedSlotIsClear(rest, date, original.duration, env, true, original.name, original.service);
      assert r.outcome.rescheduled == Appointment(original.name, p.time, p.date, original.service, original.duration);
    } else {
      var moved := original.(time := words[2], date := date);
      var scan := ConflictScan(moved, rest);
      assert r == MoveIfClear(rest, original, moved, scan, rest + [original]);
      MoveIfClearShape(rest, original, moved, scan, rest + [original]);
    }
  }

  /**
   * The corrected `reschedule` keeps the collection free of double
   * bookings (an explicit time passed the overlap loop; a "next" slot
   * overlaps nothing) and of bookings without a positive length.
   */
  lemma RescheduleKeepsSchedule(apts: seq<Appointment>, words: seq<string>, env: Env)
    requires NoDoubleBooking(apts) && PositiveDurations(apts)
    ensures NoDoubleBooking(RescheduleCommand(apts, words, env).appointments)
    ensures PositiveDurations(RescheduleCommand(apts, words, env).appointments)
  {
    if |words| >= 3 && FirstMatch(apts, words[0], words[1]) < |apts| {
      var k := FirstMatch(apts, words[0], words[1]);
      var r := RescheduleCommand(apts, words, env);
      RescheduleShape(apts, words, env, true);
      assert apts[k] in apts;
      if r.outcome.Moved? {
        MovedIsClear(apts, words, env);
        AppendMovedKeepsSchedule(apts, k, r.outcome.rescheduled);
      } else {
        RestoreKeepsSchedule(apts, k);
      }
    }
  }

  /** Erasing a booking and appending one the scan cleared, of positive length, keeps the schedule. */
  lemma AppendMovedKeepsSchedule(apts: seq<Appointment>, k: nat, moved: Appointment)
    requires k < |apts| && NoDoubleBooking(apts) && PositiveDurations(apts)
    requires ConflictScan(moved, Without(apts, k)) == Clear && moved.duration > 0
    ensures NoDoubleBooking(Without(apts, k) + [moved]) && PositiveDurations(Without(apts, k) + [moved])
  {
    var rest := Without(apts, k);
    WithoutIsIn(apts, k);
    RemoveKeepsNoDoubleBooking(apts, k);
    AppendClearKeepsNoDoubleBooking(rest, moved);
    assert forall a | a in rest + [moved] :: a in rest || a == moved;
  }

  /** Erasing a booking and appending it again keeps the schedule. */
  lemma RestoreKeepsSchedule(apts: seq<Appointment>, k: nat)
    requires k < |apts| && NoDoubleBooking(apts) && PositiveDurations(apts)
    ensures NoDoubleBooking(Without(apts, k) + [apts[k]]) && PositiveDurations(Without(apts, k) + [apts[k]])
  {
    var rest := Without(apts, k);
    WithoutIsIn(apts, k);
    MoveToEndKeepsNoDoubleBooking(apts, k);
    assert apts[k] in apts;
    assert forall a | a in rest + [apts[k]] :: a in rest || a == apts[k];
  }

  // The lost booking of reschedule as written

  /**
   * As written, an exception during `reschedule` leaves the booking it
   * was moving erased: the collection is one booking short.
   */
  lemma RescheduleAsWrittenDropsOnError(apts: seq<Appointment>, words: seq<string>, env: Env)
    requires RescheduleAsWritten(apts, words, env).outcome == MoveThrew
    ensures |words| >= 3 && FirstMatch(apts, words[0], words[1]) < |apts|
    ensures var k := FirstMatch(apts, words[0], words[1]);
      && RescheduleAsWritten(apts, words, env).appointments == Without(apts, k)
      && multiset(RescheduleAsWritten(apts, words, env).appointments) + multiset{apts[k]} == multiset(apts)
  {
    var k := FirstMatch(apts, words[0], words[1]);
    RescheduleShape(apts, words, env, false);
    WithoutIsIn(apts, k);
  }

  /**
   * The exception happens whenever the new time cannot be read (say
   * "noon") and another booking is on the target date.
   */
  lemma UnreadableNewTimeThrows(apts: seq<Appointment>, words: seq<string>, env: Env)
    requires |words| >= 3 && words[2] != "next" && TimeToMinutes(words[2]).None?
    requires FirstMatch(apts, words[0], words[1]) < |apts|
    requires var k := FirstMatch(apts, words[0], words[1]);
             exists e | e in Without(apts, k) :: e.date == (if |words| > 3 then words[3] else apts[k].date)
    ensures RescheduleAsWritten(apts, words, env).outcome == MoveThrew
    ensures RescheduleCommand(apts, words, env).outcome == MoveThrew
  {
    UnreadableScanThrows(apts, words, env, false);
    UnreadableScanThrows(apts, words, env, true);
  }

  lemma UnreadableScanThrows(apts: seq<Appointment>, words: seq<string>, env: Env, restoreOnError: bool)
    requires |words| >= 3 && words[2] != "next" && TimeToMinutes(words[2]).None?
    requires FirstMatch(apts, words[0], words[1]) < |apts|
    requires var k := FirstMatch(apts, words[0], words[1]);
             exists e | e in Without(apts, k) :: e.date == (if |words| > 3 then words[3] else apts[k].date)
    ensures Reschedule(apts, words, env, restoreOnError).outcome == MoveThrew
  {
    var k := FirstMatch(apts, words[0], words[1]);
    var moved := apts[k].(time := words[2], date := if |words| > 3 then words[3] else apts[k].date);
    UnreadableTimeStopsScan(moved, Without(apts, k));
    ScanThrowsEndsReschedule(apts, words, env, restoreOnError);
  }

  /** When the overlap loop of an explicit `reschedule` throws, so does the command. */
  lemma ScanThrowsEndsReschedule(apts: seq<Appointment>, words: seq<string>, env: Env, restoreOnError: bool)
    requires |words| >= 3 && words[2] != "next" && FirstMatch(apts, words[0], words[1]) < |apts|
    requires var k := FirstMatch(apts, words[0], words[1]);
             ConflictScan(apts[k].(time := words[2], date := if |words| > 3 then words[3] else apts[k].date),
                          Without(apts, k)) == Unreadable
    ensures var k := FirstMatch(apts, words[0], words[1]);
      Reschedule(apts, words, env, restoreOnError)
        == Step(MoveThrew, if restoreOnError then Without(apts, k) + [apts[k]] else Without(apts, k))
  {
    RescheduleExplicit(apts, words, env, restoreOnError);
  }

  /**
   * A concrete case: Henry at 10am and John at 11am on the same day;
   * `reschedule Henry 10am noon` throws in the overlap loop and, as
   * written, Henry's booking is gone, while the corrected command keeps
   * it.
   */
  lemma RescheduleToNoonLosesBooking(env: Env)
    ensures var henry := Appointment("Henry", "10am", "2025-12-15", "hair", 30);
            var john := Appointment("John", "11am", "2025-12-15", "beard", 15);
      && RescheduleAsWritten([henry, john], ["Henry", "10am", "noon"], env) == Step(MoveThrew, [john])
      && RescheduleCommand([henry, john], ["Henry", "10am", "noon"], env) == Step(MoveThrew, [john, henry])
  {
    var henry := Appointment("Henry", "10am", "2025-12-15", "hair", 30);
    var john := Appointment("John", "11am", "2025-12-15", "beard", 15);
    NoonScenario(henry, john, ["Henry", "10am", "noon"]);
    ScanThrowsEndsReschedule([henry, john], ["Henry", "10am", "noon"], env, false);
    ScanThrowsEndsReschedule([henry, john], ["Henry", "10am", "noon"], env, true);
  }

  /** The steps of the concrete case: Henry is found first, and the scan over John throws. */
  lemma NoonScenario(henry: Appointment, john: Appointment, words: seq<string>)
    requires henry == Appointment("Henry", "10am", "2025-12-15", "hair", 30)
    requires john == Appointment("John", "11am", "2025-12-15", "beard", 15)
    requires words == ["Henry", "10am", "noon"]
    ensures |words| == 3 && words[2] != "next"
    ensures FirstMatch([henry, john], words[0], words[1]) == 0
    ensures Without([henry, john], 0) == [john]
    ensures ConflictScan(henry.(time := words[2], date := henry.date), [john]) == Unreadable
  {
    assert Without([henry, john], 0) == [john];
    NoonIsUnreadable();
  }

  /** `reschedule` to an explicit time: the overlap loop over the other bookings decides. */
  lemma RescheduleExplicit(apts: seq<Appointment>, words: seq<string>, env: Env, restoreOnError: bool)
    requires |words| >= 3 && words[2] != "next" && FirstMatch(apts, words[0], words[1]) < |apts|
    ensures var k := FirstMatch(apts, words[0], words[1]);
            var rest := Without(apts, k);
            var moved := apts[k].(time := words[2], date := if |words| > 3 then words[3] else apts[k].date);
            Reschedule(apts, words, env, restoreOnError)
              == MoveIfClear(rest, apts[k], moved, ConflictScan(moved, rest),
                             if restoreOnError then rest + [apts[k]] else rest)
  {
  }

  /** "noon" has no digits: `timeToMinutes` throws on it. */
  lemma NoonIsUnreadable()
    ensures TimeToMinutes("noon") == None
  {
    assert !HasPair("noon", 'p', 'm') && !HasPair("noon", 'P', 'M');
    assert !HasPair("noon", 'a', 'm') && !HasPair("noon", 'A', 'M');
    assert IndexOf("noon", ':') == 4;
    assert SkipSpace("noon") == "noon";
    assert DigitPrefix("noon") == 0;
  }

  // display

  /** `getWeekStart` steps back onto a Monday (weekday 1), by at most six days. */
  lemma DaysToMondayLandsOnMonday(wday: nat)
    requires wday < 7
    ensures DaysToMonday(wday) <= 6 && (wday + 7 - DaysToMonday(wday)) % 7 == 1
  {
  }

  /**
   * `add` refuses a service that gives no positive duration, and a
   * booking at an explicit time that the overlap loop finds in conflict,
   * naming the first booking it overlaps; in both cases the collection
   * is left as it was.
   */
  lemma AddRejections(apts: seq<Appointment>, words: seq<string>, env: Env)
    requires |words| >= 3
    ensures ParseServiceDuration(words[2]) <= 0 ==> AddCommand(apts, words, env) == InvalidService
    ensures var duration := ParseServiceDuration(words[2]);
            var apt := Appointment(words[0], words[1], if |words| > 3 then words[3] else env.today, words[2], duration);
            duration > 0 && words[1] != "next" && ConflictScan(apt, apts).Conflict? ==>
              AddCommand(apts, words, env) == AddOverlaps(ConflictScan(apt, apts).existing)
    ensures !AddCommand(apts, words, env).Added? ==> AfterAdd(apts, AddCommand(apts, words, env)) == apts
  {
  }

  /**
   * With Henry booked at 10am for 30 minutes, `add John 10:15am beard`
   * on that day is refused with Henry as the booking it overlaps.
   */
  lemma AddOverlappingHenry(env: Env)
    ensures var henry := Appointment("Henry", "10am", env.today, "hair", 30);
      AddCommand([henry], ["John", "10:15am", "beard"], env) == AddOverlaps(henry)
  {
    var henry := Appointment("Henry", "10am", env.today, "hair", 30);
    var john := Appointment("John", "10:15am", env.today, "beard", 15);
    var words := ["John", "10:15am", "beard"];
    TenAndQuarterPastTen();
    assert Overlaps(john, henry) == Some(true);
    assert ConflictScan(john, [henry]) == Conflict(henry);
    AddAtConflict([henry], "John", "beard", 15, Placed(env.today, "10:15am"), henry);
    assert ParseServiceDuration(words[2]) == 15;
    assert words[0] == "John" && words[1] == "10:15am" && words[2] == "beard" && |words| == 3;
    AddExplicit([henry], words, env);
  }

  /** A placed booking that the overlap loop finds in conflict is refused. */
  lemma AddAtConflict(apts: seq<Appointment>, name: string, service: string, duration: int, p: Placement, e: Appointment)
    requires p.Placed? && ConflictScan(Appointment(name, p.time, p.date, service, duration), apts) == Conflict(e)
    ensures AddAt(apts, name, service, duration, p) == AddOverlaps(e)
  {
  }

  /** `add` at an explicit time: the overlap loop at the typed time and date decides. */
  lemma AddExplicit(apts: seq<Appointment>, words: seq<string>, env: Env)
    requires |words| >= 3 && words[1] != "next" && ParseServiceDuration(words[2]) > 0
    ensures AddCommand(apts, words, env)
         == AddAt(apts, words[0], words[2], ParseServiceDuration(words[2]),
                  Placed(if |words| > 3 then words[3] else env.today, words[1]))
  {
  }

  /** "10am" reads as minute 600 and "10:15am" as minute 615. */
  lemma TenAndQuarterPastTen()
    ensures TimeToMinutes("10am") == Some(600) && TimeToMinutes("10:15am") == Some(615)
  {
    TenAm();
    QuarterPastTen();
  }

  lemma TenAm()
    ensures TimeToMinutes("10am") == Some(600)
  {
    StoiNatToString(10);
    assert NatToString(10) == "10";
    ReadFaceOnTheHour("10", 10, false, "10am", 600);
  }

  lemma QuarterPastTen()
    ensures TimeToMinutes("10:15am") == Some(615)
  {
    StoiNatToString(10);
    assert NatToString(10) == "10";
    StoiTwoDigits(15);
    assert TwoDigits(15) == "15";
    ReadFaceWithMinutes("10", 10, "15", 15, false, "10:15", "10:15am", 615);
  }

  /**
   * `add ... next` when the search finds no slot on the date: on any
   * date but today nothing is booked; today, answer "1" books on the
   * next day, "2" books by the override window, and any other answer
   * cancels. Nothing is added but by one of those searches.
   */
  lemma AddNextWithoutSlot(apts: seq<Appointment>, words: seq<string>, env: Env)
    requires |words| >= 3 && words[1] == "next" && ParseServiceDuration(words[2]) > 0
    requires var date := if |words| > 3 then words[3] else env.today;
             FindSlot(apts, date, ParseServiceDuration(words[2]), false, env.today, env.now) == NoSlot
    ensures var date := if |words| > 3 then words[3] else env.today;
            var o := AddCommand(apts, words, env);
      && (date != env.today ==> o == NotPlaced(NoSlotOn(date)))
      && (date == env.today && env.choice != "1" && env.choice != "2" ==> o == NotPlaced(Cancelled))
      && (o.Added? ==> date == env.today && (env.choice == "1" || env.choice == "2"))
      && (o.Added? && env.choice == "1" ==>
            && o.apt.date == NextDate(env, date)
            && FindSlot(apts, NextDate(env, date), o.apt.duration, false, env.today, env.now).Found?
            && o.apt.time == MinutesToTime(FindSlot(apts, NextDate(env, date), o.apt.duration, false, env.today, env.now).start))
      && (o.Added? && env.choice == "2" ==>
            && o.apt.date == date
            && FindSlot(apts, date, o.apt.duration, true, env.today, env.now).Found?
            && o.apt.time == MinutesToTime(FindSlot(apts, date, o.apt.duration, true, env.today, env.now).start))
  {
    var duration := ParseServiceDuration(words[2]);
    var date := if |words| > 3 then words[3] else env.today;
    var p := NextPlacement(apts, date, duration, env, date == env.today);
    assert AddCommand(apts, words, env) == AddAt(apts, words[0], words[2], duration, p);
    AddAtShape(apts, words[0], words[2], duration, p);
  }

  /**
   * `reschedule ... next` offers the dialog whatever the date, unlike
   * `add`: when the first search finds nothing, answer "1" tries the
   * next day, "2" the override window, and any other answer puts the
   * original back at the end.
   */
  lemma RescheduleNextWithoutSlot(apts: seq<Appointment>, words: seq<string>, env: Env)
    requires |words| >= 3 && words[2] == "next" && FirstMatch(apts, words[0], words[1]) < |apts|
    requires var k := FirstMatch(apts, words[0], words[1]);
             var date := if |words| > 3 then words[3] else apts[k].date;
             FindSlot(Without(apts, k), date, apts[k].duration, false, env.today, env.now) == NoSlot
    ensures var k := FirstMatch(apts, words[0], words[1]);
            var rest := Without(apts, k);
            var date := if |words| > 3 then words[3] else apts[k].date;
            var r := RescheduleCommand(apts, words, env);
      && (env.choice != "1" && env.choice != "2" ==>
            r == Step(MoveNotPlaced(Cancelled), rest + [apts[k]]))
      && (env.choice == "1" ==>
            var second := FindSlot(rest, NextDate(env, date), apts[k].duration, false, env.today, env.now);
            second.Found? ==>
              r.appointments == rest + [apts[k].(time := MinutesToTime(second.start), date := NextDate(env, date))])
      && (env.choice == "2" ==>
            var late := FindSlot(rest, date, apts[k].duration, true, env.today, env.now);
            late.Found? ==>
              r.appointments == rest + [apts[k].(time := MinutesToTime(late.start), date := date)])
  {
    var k := FirstMatch(apts, words[0], words[1]);
    var rest := Without(apts, k);
    var date := if |words| > 3 then words[3] else apts[k].date;
    var duration := apts[k].duration;
    var p := NextPlacement(rest, date, duration, env, true);
    RescheduleNext(apts, words, env);
    var r := RescheduleCommand(apts, words, env);
    assert r == MoveToPlacement(rest, apts[k], p, rest + [apts[k]]);
    DialogAfterNoSlot(rest, date, duration, env);
  }

  /** The dialog once the first search found no slot. */
  lemma DialogAfterNoSlot(apts: seq<Appointment>, date: string, duration: int, env: Env)
    requires FindSlot(apts, date, duration, false, env.today, env.now) == NoSlot
    ensures var p := NextPlacement(apts, date, duration, env, true);
            var second := FindSlot(apts, NextDate(env, date), duration, false, env.today, env.now);
            var late := FindSlot(apts, date, duration, true, env.today, env.now);
      && (env.choice != "1" && env.choice != "2" ==> p == Cancelled)
      && (env.choice == "1" && second.Found? ==> p == Placed(NextDate(env, date), MinutesToTime(second.start)))
      && (env.choice == "2" && late.Found? ==> p == Placed(date, MinutesToTime(late.start)))
  {
  }

  /** `reschedule ... next`: the placement on the other bookings decides. */
  lemma RescheduleNext(apts: seq<Appointment>, words: seq<string>, env: Env)
    requires |words| >= 3 && words[2] == "next" && FirstMatch(apts, words[0], words[1]) < |apts|
    ensures var k := FirstMatch(apts, words[0], words[1]);
            var rest := Without(apts, k);
            var date := if |words| > 3 then words[3] else apts[k].date;
            RescheduleCommand(apts, words, env)
              == MoveToPlacement(rest, apts[k], NextPlacement(rest, date, apts[k].duration, env, true), rest + [apts[k]])
  {
  }

  /**
   * The booking being moved never blocks itself: it is erased before
   * the overlap loop, so moving a booking to its own time and date
   * succeeds whenever it overlaps none of the others, although it
   * overlaps itself.
   */
  lemma RescheduleInPlaceSucceeds(apts: seq<Appointment>, name: string, time: string, env: Env)
    requires time != "next" && FirstMatch(apts, name, time) < |apts|
    requires var k := FirstMatch(apts, name, time);
             forall i | 0 <= i < |apts| && i != k :: Overlaps(apts[k], apts[i]) == Some(false)
    ensures var k := FirstMatch(apts, name, time);
            var r := RescheduleCommand(apts, [name, time, time], env);
      && r.outcome == Moved(apts[k], apts[k])
      && r.appointments == Without(apts, k) + [apts[k]]
  {
    var k := FirstMatch(apts, name, time);
    var words := [name, time, time];
    var rest := Without(apts, k);
    OthersClear(apts, k);
    assert apts[k].(time := time, date := apts[k].date) == apts[k];
    assert FirstMatch(apts, words[0], words[1]) == k;
    RescheduleExplicit(apts, words, env, true);
    assert RescheduleCommand(apts, words, env) == MoveIfClear(rest, apts[k], apts[k], Clear, rest + [apts[k]]);
  }

  /** A booking that overlaps none of the others is cleared by the scan over them. */
  lemma OthersClear(apts: seq<Appointment>, k: nat)
    requires k < |apts|
    requires forall i | 0 <= i < |apts| && i != k :: Overlaps(apts[k], apts[i]) == Some(false)
    ensures ConflictScan(apts[k], Without(apts, k)) == Clear
  {
    var rest := Without(apts, k);
    forall e | e in rest ensures Overlaps(apts[k], e) == Some(false) {
      var i :| 0 <= i < |rest| && rest[i] == e;
      if i < k {
        assert e == apts[i];
      } else {
        assert e == apts[i + 1];
      }
    }
    ClearIffNoOverlap(apts[k], rest);
  }

  /**
   * The remembered week moves forward by seven days on "next", back by
   * seven on "prev" or "previous", returns to this week's Monday with no
   * word and stays where it was on any other word; so "next" followed by
   * "prev" comes back to the same week when the calendar steps undo
   * each other.
   */
  lemma WeekNavigation(anchor: string, word: string, env: Env)
    requires word != "" && word != "next" && word != "prev" && word != "previous"
    ensures WeekAnchor(Some(anchor), "next", env) == env.addDays(anchor, 7)
    ensures WeekAnchor(Some(anchor), "prev", env) == env.addDays(anchor, -7)
    ensures WeekAnchor(Some(anchor), "previous", env) == env.addDays(anchor, -7)
    ensures WeekAnchor(Some(anchor), "", env) == env.weekStart
    ensures WeekAnchor(Some(anchor), word, env) == anchor
    ensures WeekAnchor(None, word, env) == env.weekStart
    ensures env.addDays(env.addDays(anchor, 7), -7) == anchor ==>
              WeekAnchor(Some(WeekAnchor(Some(anchor), "next", env)), "prev", env) == anchor
  {
  }

  // The shell's state

  /** The bookings the shell holds and the Monday `display weekly` remembers. */
  class Scheduler {
    var appointments: seq<Appointment>
    var weekAnchor: Option<string>

    /** The shell after start-up, holding the loaded bookings and no remembered week yet. */
    constructor (loaded: seq<Appointment>)
      ensures appointments == loaded && weekAnchor == None
    {
      appointments := loaded;
      weekAnchor := None;
    }

    method Add(words: seq<string>, env: Env) returns (o: AddOutcome)
      modifies this
      ensures o == AddCommand(old(appointments), words, env)
      ensures appointments == AfterAdd(old(appointments), o)
      ensures weekAnchor == old(weekAnchor)
    {
      if |words| < 3 {
        return AddUsage;
      }
      var duration := ParseServiceDuration(words[2]);
      if duration <= 0 {
        return InvalidService;
      }
      var date := if |words| > 3 then words[3] else env.today;
      var placement;
      if words[1] == "next" {
        placement := PlaceNext(appointments, date, duration, env, date == env.today);
      } else {
        placement := Placed(date, words[1]);
      }
      if placement.SearchThrew? {
        return AddThrew;
      }
      if !placement.Placed? {
        return NotPlaced(placement);
      }
      var apt := Appointment(words[0], placement.time, placement.date, words[2], duration);
      var scan := CheckOverlap(apt, appointments);
      match scan {
        case Clear =>
          appointments := appointments + [apt];
          o := Added(apt);
        case Conflict(e) =>
          o := AddOverlaps(e);
        case Unreadable =>
          o := AddThrew;
      }
    }

    method Del(words: seq<string>) returns (o: DelOutcome)
      modifies this
      ensures DelCommand(old(appointments), words) == Step(o, appointments)
      ensures weekAnchor == old(weekAnchor)
    {
      if |words| < 2 {
        return DelUsage;
      }
      var k := FindAppointment(appointments, words[0], words[1]);
      if k == |appointments| {
        return DelNotFound;
      }
      o := Deleted(appointments[k]);
      appointments := appointments[..k] + appointments[k + 1..];
    }

    /** The corrected `reschedule`. */
    method Reschedule(words: seq<string>, env: Env) returns (o: RescheduleOutcome)
      modifies this
      ensures RescheduleCommand(old(appointments), words, env) == Step(o, appointments)
      ensures weekAnchor == old(weekAnchor)
    {
      if |words| < 3 {
        return RescheduleUsage;
      }
      var k := FindAppointment(appointments, words[0], words[1]);
      if k == |appointments| {
        return RescheduleNotFound;
      }
      var original := appointments[k];
      var date := if |words| > 3 then words[3] else original.date;
      appointments := appointments[..k] + appointments[k + 1..];
      if words[2] == "next" {
        var p := PlaceNext(appointments, date, original.duration, env, true);
        if p.Placed? {
          var moved := original.(time := p.time, date := p.date);
          appointments := appointments + [moved];
          o := Moved(original, moved);
        } else {
          appointments := appointments + [original];
          o := if p.SearchThrew? then MoveThrew else MoveNotPlaced(p);
        }
      } else {
        var moved := original.(time := words[2], date := date);
        var scan := CheckOverlap(moved, appointments);
        match scan {
          case Clear =>
            appointments := appointments + [moved];
            o := Moved(original, moved);
          case Conflict(e) =>
            appointments := appointments + [original];
            o := MoveOverlaps(e);
          case Unreadable =>
            appointments := appointments + [original];
            o := MoveThrew;
        }
      }
    }

    method Display(words: seq<string>, env: Env) returns (shown: Shown)
      modifies this
      ensures (shown, weekAnchor) == DisplayCommand(appointments, old(weekAnchor), words, env)
      ensures appointments == old(appointments)
    {
      var viewType := if |words| > 0 then words[0] else "";
      var navigation := if |words| > 1 then words[1] else "";
      if viewType == "" || viewType == "daily" {
        var day := DisplayDailySchedule(appointments, env.today);
        shown := DayShown(day);
      } else if viewType == "weekly" || viewType == "week" {
        weekAnchor := Some(WeekAnchor(weekAnchor, navigation, env));
        var listing := DisplayWeeklySchedule(appointments, weekAnchor.value, env.addDays);
        shown := WeekShown(listing);
      } else if '-' in viewType {
        var day := DisplayDailySchedule(appointments, viewType);
        shown := DayShown(day);
      } else {
        shown := InvalidDisplay;
      }
    }
  }
}
