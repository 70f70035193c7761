/**
 * The next-free-slot search `findNextAvailableTime` (main.cpp:369-409):
 * a walk over the 15-minute grid of the opening hours, testing each
 * candidate start against the bookings already on that date. The date
 * of today and the minute of the day are readings of the clock and are
 * parameters here.
 */
module SlotFinder {
  import opened Wrappers
  import opened TimeText
  import opened Appointments

  /** The closing time under the admin override: 10pm. */
  const OverrideEnd: int := 22 * 60

  /** `((m + 14) / 15) * 15`: the next grid minute at or after `m`. */
  function RoundUp(m: nat): nat
  {
    ((m + Interval - 1) / Interval) * Interval
  }

  /**
   * The first candidate: 10am, or for today the later of 10am and the
   * current minute rounded up to the grid (main.cpp:375-384).
   */
  function SearchStart(date: string, today: string, now: nat): nat
  {
    if date == today && RoundUp(now) > BusinessStart then RoundUp(now) else BusinessStart
  }

  /** The end of the day the slot must fit in (main.cpp:372). */
  function SearchEnd(adminOverride: bool): int
  {
    if adminOverride then OverrideEnd else BusinessEnd
  }

  /**
   * The outcome of the inner loop for one candidate: free, blocked by
   * a same-date booking it overlaps, or stopped by a same-date booking
   * whose time `std::stoi` cannot read.
   */
  datatype Probe = Free | Busy | Broken

  /** The inner loop of main.cpp:389-400 for a slot of `duration` minutes at `t`. */
  function ProbeAt(apts: seq<Appointment>, date: string, t: int, duration: int): Probe
    decreases |apts|
  {
    if apts == [] then Free
    else if apts[0].date != date then ProbeAt(apts[1..], date, t, duration)
    else match TimeToMinutes(apts[0].time)
      case None => Broken
      case Some(s) =>
        if IntervalsOverlap(t, t + duration, s, s + apts[0].duration) then Busy
        else ProbeAt(apts[1..], date, t, duration)
  }

  /** The result of the search: a start minute, no slot (""), or an exception. */
  datatype SlotResult = Found(start: nat) | NoSlot | TimeError

  /** The outer loop of main.cpp:386-406 from candidate `t` on. */
  function SearchFrom(apts: seq<Appointment>, date: string, duration: int, t: nat, end: int): SlotResult
    decreases end - duration - t
  {
    if t + duration > end then NoSlot
    else match ProbeAt(apts, date, t, duration)
      case Free => Found(t)
      case Broken => TimeError
      case Busy => SearchFrom(apts, date, duration, t + Interval, end)
  }

  /** `findNextAvailableTime`, with the clock readings `today` and `now` as parameters. */
  function FindSlot(apts: seq<Appointment>, date: string, duration: int, adminOverride: bool,
                    today: string, now: nat): SlotResult
  {
    SearchFrom(apts, date, duration, SearchStart(date, today, now), SearchEnd(adminOverride))
  }

  /** The search as the program runs it: the nested loops with the `available` flag. */
  method FindNextAvailableTime(apts: seq<Appointment>, date: string, duration: int, adminOverride: bool,
                               today: string, now: nat) returns (r: SlotResult)
    ensures r == FindSlot(apts, date, duration, adminOverride, today, now)
  {
    var end := SearchEnd(adminOverride);
    var t := SearchStart(date, today, now);
    while t + duration <= end
      invariant FindSlot(apts, date, duration, adminOverride, today, now) == SearchFrom(apts, date, duration, t, end)
      decreases end - duration - t
    {
      var available := true;
      var i := 0;
      while i < |apts|
        invariant 0 <= i <= |apts|
        invariant ProbeAt(apts, date, t, duration)
               == if available then ProbeAt(apts[i..], date, t, duration) else Busy
      {
        assert apts[i..][1..] == apts[i + 1..];
        if apts[i].date == date {
          var aptStart := TimeToMinutes(apts[i].time);
          if aptStart.None? {
            return TimeError;
          }
          var aptEnd := aptStart.value + apts[i].duration;
          if t < aptEnd && t + duration > aptStart.value {
            available := false;
            break;
          }
        }
        i := i + 1;
      }
      if available {
        return Found(t);
      }
      t := t + Interval;
    }
    return NoSlot;
  }

  // What one probe means

  /**
   * A candidate is free exactly when every booking on that date has a
   * readable time and does not overlap it.
   */
  lemma {:induction false} FreeIffNoSameDateOverlap(apts: seq<Appointment>, date: string, t: int, duration: int)
    ensures ProbeAt(apts, date, t, duration) == Free
        <==> forall e | e in apts && e.date == date ::
               RangesOverlap(Some(t), duration, TimeToMinutes(e.time), e.duration) == Some(false)
    decreases |apts|
  {
    if apts != [] {
      FreeIffNoSameDateOverlap(apts[1..], date, t, duration);
      assert forall e | e in apts :: e == apts[0] || e in apts[1..];
    }
  }

  /** A busy candidate overlaps some readable booking on that date. */
  lemma {:induction false} BusyHasCause(apts: seq<Appointment>, date: string, t: int, duration: int)
    requires ProbeAt(apts, date, t, duration) == Busy
    ensures exists e | e in apts && e.date == date ::
              RangesOverlap(Some(t), duration, TimeToMinutes(e.time), e.duration) == Some(true)
    decreases |apts|
  {
    if apts[0].date != date || RangesOverlap(Some(t), duration, TimeToMinutes(apts[0].time), apts[0].duration) != Some(true) {
      BusyHasCause(apts[1..], date, t, duration);
      var e :| e in apts[1..] && e.date == date
             && RangesOverlap(Some(t), duration, TimeToMinutes(e.time), e.duration) == Some(true);
      assert e in apts;
    }
  }

  /** A broken probe comes from a booking on that date whose time cannot be read. */
  lemma {:induction false} BrokenHasCause(apts: seq<Appointment>, date: string, t: int, duration: int)
    requires ProbeAt(apts, date, t, duration) == Broken
    ensures exists e | e in apts && e.date == date :: TimeToMinutes(e.time).None?
    decreases |apts|
  {
    if apts[0].date != date || TimeToMinutes(apts[0].time).Some? {
      BrokenHasCause(apts[1..], date, t, duration);
      var e :| e in apts[1..] && e.date == date && TimeToMinutes(e.time).None?;
      assert e in apts;
    }
  }

  // What the search returns

  /** `c` is a grid candidate at least `t0`: `t0 + 15k` for some k. */
  predicate OnGrid(c: int, t0: int)
  {
    c >= t0 && (c - t0) % Interval == 0
  }

  /**
   * A found slot is a free grid candidate from `t0` that fits before
   * `end`, and every earlier grid candidate was busy.
   */
  lemma {:induction false} FoundIsEarliestFree(apts: seq<Appointment>, date: string, duration: int, t0: nat, end: int, s: nat)
    requires SearchFrom(apts, date, duration, t0, end) == Found(s)
    ensures OnGrid(s, t0) && s + duration <= end
    ensures ProbeAt(apts, date, s, duration) == Free
    ensures forall c | OnGrid(c, t0) && c < s :: ProbeAt(apts, date, c, duration) == Busy
    decreases end - duration - t0
  {
    if ProbeAt(apts, date, t0, duration) == Busy {
      FoundIsEarliestFree(apts, date, duration, t0 + Interval, end, s);
      forall c | OnGrid(c, t0) && c < s ensures ProbeAt(apts, date, c, duration) == Busy {
        if c != t0 {
          assert OnGrid(c, t0 + Interval);
        }
      }
    }
  }

  /** No slot means every grid candidate that fits was busy, and conversely. */
  lemma {:induction false} NoSlotIffAllBusy(apts: seq<Appointment>, date: string, duration: int, t0: nat, end: int)
    ensures SearchFrom(apts, date, duration, t0, end) == NoSlot
        <==> forall c | OnGrid(c, t0) && c + duration <= end :: ProbeAt(apts, date, c, duration) == Busy
    decreases end - duration - t0
  {
    if t0 + duration <= end {
      NoSlotIffAllBusy(apts, date, duration, t0 + Interval, end);
      if ProbeAt(apts, date, t0, duration) == Busy {
        forall c | OnGrid(c, t0 + Interval) ensures OnGrid(c, t0) {
        }
        forall c | OnGrid(c, t0) && c != t0 ensures OnGrid(c, t0 + Interval) {
        }
      } else {
        assert OnGrid(t0, t0);
      }
    } else {
      forall c | OnGrid(c, t0) && c + duration <= end ensures false {
      }
    }
  }

  /** The search stops with an exception only because of an unreadable same-date time. */
  lemma {:induction false} TimeErrorHasCause(apts: seq<Appointment>, date: string, duration: int, t0: nat, end: int)
    requires SearchFrom(apts, date, duration, t0, end) == TimeError
    ensures exists e | e in apts && e.date == date :: TimeToMinutes(e.time).None?
    decreases end - duration - t0
  {
    if ProbeAt(apts, date, t0, duration) == Broken {
      BrokenHasCause(apts, date, t0, duration);
    } else {
      TimeErrorHasCause(apts, date, duration, t0 + Interval, end);
    }
  }

  /**
   * The search's promise in the program's terms: a slot is on the grid
   * from the first candidate, from 10am and, today, not before the
   * current minute; it ends by 6pm (10pm with the override); it
   * overlaps no booking on that date; and every earlier grid candidate
   * was taken.
   */
  lemma FindSlotFound(apts: seq<Appointment>, date: string, duration: int, adminOverride: bool,
                      today: string, now: nat, s: nat)
    requires FindSlot(apts, date, duration, adminOverride, today, now) == Found(s)
    ensures s >= BusinessStart && (date == today ==> s >= now)
    ensures OnGrid(s, SearchStart(date, today, now))
    ensures s + duration <= (if adminOverride then 22 * 60 else 18 * 60)
    ensures forall e | e in apts && e.date == date ::
              RangesOverlap(Some(s), duration, TimeToMinutes(e.time), e.duration) == Some(false)
    ensures forall c | OnGrid(c, SearchStart(date, today, now)) && c < s :: ProbeAt(apts, date, c, duration) == Busy
  {
    var t0 := SearchStart(date, today, now);
    FoundIsEarliestFree(apts, date, duration, t0, SearchEnd(adminOverride), s);
    FreeIffNoSameDateOverlap(apts, date, s, duration);
  }

  /**
   * A slot the search found passes the overlap check `add` runs next
   * (main.cpp:561-569): its clock text reads back as the slot, and
   * the slot overlaps no booking on its date.
   */
  lemma FoundSlotPassesScan(apts: seq<Appointment>, date: string, duration: int, adminOverride: bool,
                            today: string, now: nat, s: nat, apt: Appointment)
    requires FindSlot(apts, date, duration, adminOverride, today, now) == Found(s)
    requires duration > 0
    requires apt == Appointment(apt.name, MinutesToTime(s), date, apt.service, duration)
    ensures ConflictScan(apt, apts) == Clear
  {
    FindSlotFound(apts, date, duration, adminOverride, today, now, s);
    TimeRoundTrip(s);
    forall e | e in apts ensures Overlaps(apt, e) == Some(false) {
      SlotOverlaps(apt, e, s);
    }
    ClearIffNoOverlap(apt, apts);
  }

  /** How a booking whose time reads as `s` overlaps another, in terms of `s`. */
  lemma SlotOverlaps(apt: Appointment, e: Appointment, s: int)
    requires TimeToMinutes(apt.time) == Some(s)
    ensures Overlaps(apt, e) == if apt.date != e.date then Some(false)
                                else RangesOverlap(Some(s), apt.duration, TimeToMinutes(e.time), e.duration)
  {
  }

  /**
   * With no booking on the date, the search returns its first candidate
   * whenever the slot fits; on any day but today with nothing booked, a
   * 45-minute slot is found at 10am.
   */
  lemma EmptyDateGivesFirstCandidate(apts: seq<Appointment>, date: string, duration: int, adminOverride: bool,
                                     today: string, now: nat)
    requires forall e | e in apts :: e.date != date
    requires SearchStart(date, today, now) + duration <= SearchEnd(adminOverride)
    ensures FindSlot(apts, date, duration, adminOverride, today, now) == Found(SearchStart(date, today, now))
    ensures date != today && duration == 45 ==> MinutesToTime(FindSlot(apts, date, duration, adminOverride, today, now).start) == "10am"
  {
    FreeIffNoSameDateOverlap(apts, date, SearchStart(date, today, now), duration);
    if date != today {
      assert NatToString(10) == "10";
    }
  }
}
