/**
 * Appointments and the double-booking rule: the record the shop keeps
 * for each booking, the overlap test between two bookings
 * (main.cpp:230-239) and the scan that `add` and `reschedule` run over
 * the existing bookings before accepting a new one.
 */
module Appointments {
  import opened Wrappers
  import opened TimeText

  /**
   * One booking (main.cpp:12-18). The time stays the text the operator
   * typed; it is parsed only where the program compares times.
   */
  datatype Appointment = Appointment(name: string, time: string, date: string, service: string, duration: int)

  /** Opening hours, 10am to 6pm, in minutes since midnight (main.cpp:251-252, 370-371). */
  const BusinessStart: int := 10 * 60
  const BusinessEnd: int := 18 * 60
  /** The grid the schedule is laid out on and searched along, in minutes. */
  const Interval: int := 15

  /** The half-open minute ranges [s1, e1) and [s2, e2) intersect. */
  predicate IntervalsOverlap(s1: int, e1: int, s2: int, e2: int)
  {
    s1 < e2 && e1 > s2
  }

  /**
   * `appointmentsOverlap`: bookings on different dates never overlap;
   * on the same date both times are parsed (None where `std::stoi`
   * throws) and their ranges of `duration` minutes are intersected.
   */
  function Overlaps(a: Appointment, b: Appointment): Option<bool>
  {
    if a.date != b.date then Some(false)
    else RangesOverlap(TimeToMinutes(a.time), a.duration, TimeToMinutes(b.time), b.duration)
  }

  /** The overlap of two parsed start times with their durations. */
  function RangesOverlap(aStart: Option<int>, aLength: int, bStart: Option<int>, bLength: int): Option<bool>
  {
    if aStart.None? || bStart.None? then None
    else Some(IntervalsOverlap(aStart.value, aStart.value + aLength, bStart.value, bStart.value + bLength))
  }

  /** No two bookings of `s` are known to overlap. */
  predicate NoDoubleBooking(s: seq<Appointment>)
  {
    forall i, j | 0 <= i < j < |s| :: Overlaps(s[i], s[j]) != Some(true)
  }

  /**
   * The outcome of the overlap loop of `add` (main.cpp:561-569) and
   * `reschedule` (main.cpp:690-697): no conflict, the first existing
   * booking that overlaps, or a time that `std::stoi` cannot read.
   */
  datatype ScanResult = Clear | Conflict(existing: Appointment) | Unreadable

  /** The overlap loop, stopping at the first overlap or the first exception. */
  function ConflictScan(apt: Appointment, existing: seq<Appointment>): ScanResult
    decreases |existing|
  {
    if existing == [] then Clear
    else match Overlaps(apt, existing[0])
      case None => Unreadable
      case Some(true) => Conflict(existing[0])
      case Some(false) => ConflictScan(apt, existing[1..])
  }

  /** The overlap loop as the program runs it: one existing booking at a time. */
  method CheckOverlap(apt: Appointment, existing: seq<Appointment>) returns (r: ScanResult)
    ensures r == ConflictScan(apt, existing)
  {
    var i := 0;
    while i < |existing|
      invariant 0 <= i <= |existing|
      invariant ConflictScan(apt, existing) == ConflictScan(apt, existing[i..])
    {
      assert existing[i..][1..] == existing[i + 1..];
      var o := Overlaps(apt, existing[i]);
      if o.None? {
        return Unreadable;
      }
      if o.value {
        return Conflict(existing[i]);
      }
      i := i + 1;
    }
    return Clear;
  }

  // Properties of the overlap rule

  /** Bookings on different dates never overlap, whatever their times. */
  lemma DifferentDatesNeverOverlap(a: Appointment, b: Appointment)
    requires a.date != b.date
    ensures Overlaps(a, b) == Some(false)
  {
  }

  /** Overlap is symmetric, including whether it can be decided at all. */
  lemma OverlapsSymmetric(a: Appointment, b: Appointment)
    ensures Overlaps(a, b) == Overlaps(b, a)
  {
  }

  /** A booking that starts exactly when another ends does not overlap it. */
  lemma BackToBackDoNotOverlap(a: Appointment, b: Appointment, aStart: int)
    requires a.date == b.date
    requires TimeToMinutes(a.time) == Some(aStart)
    requires TimeToMinutes(b.time) == Some(aStart + a.duration)
    ensures Overlaps(a, b) == Some(false)
  {
  }

  /** A booking of positive length with a readable time overlaps itself. */
  lemma OverlapsItself(a: Appointment)
    requires a.duration > 0 && TimeToMinutes(a.time).Some?
    ensures Overlaps(a, a) == Some(true)
  {
  }

  /** Minute `t` lies in the half-open range [s, e). */
  predicate InRange(t: int, s: int, e: int)
  {
    s <= t < e
  }

  /**
   * For non-empty ranges the test is exactly "some minute lies in both":
   * the half-open reading of `aStart < bEnd && aEnd > bStart`.
   */
  lemma IntervalsOverlapIffCommonMinute(s1: int, e1: int, s2: int, e2: int)
    requires s1 < e1 && s2 < e2
    ensures IntervalsOverlap(s1, e1, s2, e2) <==> exists t :: InRange(t, s1, e1) && InRange(t, s2, e2)
  {
    if IntervalsOverlap(s1, e1, s2, e2) {
      var t := if s1 < s2 then s2 else s1;
      assert InRange(t, s1, e1) && InRange(t, s2, e2);
    }
  }

  // Properties of the scan

  /** The scan is clear exactly when every existing booking is known not to overlap. */
  lemma {:induction false} ClearIffNoOverlap(apt: Appointment, existing: seq<Appointment>)
    ensures ConflictScan(apt, existing) == Clear
        <==> forall e | e in existing :: Overlaps(apt, e) == Some(false)
    decreases |existing|
  {
    if existing != [] {
      ClearIffNoOverlap(apt, existing[1..]);
      assert forall e | e in existing :: e == existing[0] || e in existing[1..];
    }
  }

  /** `existing[k]` is `e`, overlaps `apt`, and every booking before it is known not to. */
  predicate FirstOverlapAt(apt: Appointment, existing: seq<Appointment>, e: Appointment, k: nat)
  {
    && k < |existing| && existing[k] == e && Overlaps(apt, e) == Some(true)
    && forall i | 0 <= i < k :: Overlaps(apt, existing[i]) == Some(false)
  }

  /** A reported conflict is an existing booking that overlaps, after only clear ones. */
  lemma ConflictIsFirstOverlap(apt: Appointment, existing: seq<Appointment>, e: Appointment)
    requires ConflictScan(apt, existing) == Conflict(e)
    ensures exists k: nat :: FirstOverlapAt(apt, existing, e, k)
  {
    var k := ConflictIndex(apt, existing, e);
  }

  /** The position of the conflict the scan reports. */
  lemma {:induction false} ConflictIndex(apt: Appointment, existing: seq<Appointment>, e: Appointment) returns (k: nat)
    requires ConflictScan(apt, existing) == Conflict(e)
    ensures FirstOverlapAt(apt, existing, e, k)
    decreases |existing|
  {
    if Overlaps(apt, existing[0]) == Some(true) {
      k := 0;
    } else {
      var j := ConflictIndex(apt, existing[1..], e);
      k := j + 1;
      forall i | 0 <= i < k ensures Overlaps(apt, existing[i]) == Some(false) {
        if i > 0 {
          assert existing[i] == existing[1..][i - 1];
        }
      }
    }
  }

  /** The scan reports an unreadable time only when a same-date booking has one. */
  lemma {:induction false} UnreadableHasCause(apt: Appointment, existing: seq<Appointment>)
    requires ConflictScan(apt, existing) == Unreadable
    ensures exists e | e in existing :: Overlaps(apt, e).None?
    decreases |existing|
  {
    if Overlaps(apt, existing[0]).Some? {
      UnreadableHasCause(apt, existing[1..]);
      var e :| e in existing[1..] && Overlaps(apt, e).None?;
      assert e in existing;
    }
  }

  /**
   * A booking whose own time cannot be read stops the scan with the
   * exception as soon as it meets a booking on the same date.
   */
  lemma {:induction false} UnreadableTimeStopsScan(apt: Appointment, existing: seq<Appointment>)
    requires TimeToMinutes(apt.time).None?
    requires exists e | e in existing :: e.date == apt.date
    ensures ConflictScan(apt, existing) == Unreadable
    decreases |existing|
  {
    if existing[0].date != apt.date {
      var e :| e in existing && e.date == apt.date;
      assert e in existing[1..];
      UnreadableTimeStopsScan(apt, existing[1..]);
    }
  }

  /** Appending a booking the scan cleared keeps the collection free of double bookings. */
  lemma AppendClearKeepsNoDoubleBooking(s: seq<Appointment>, apt: Appointment)
    requires NoDoubleBooking(s)
    requires ConflictScan(apt, s) == Clear
    ensures NoDoubleBooking(s + [apt])
  {
    ClearIffNoOverlap(apt, s);
    var t := s + [apt];
    forall i, j | 0 <= i < j < |t| ensures Overlaps(t[i], t[j]) != Some(true) {
      if j == |s| {
        assert t[i] in s;
        OverlapsSymmetric(t[i], apt);
      } else {
        assert t[i] == s[i] && t[j] == s[j];
      }
    }
  }

  /** Removing one booking keeps the rest free of double bookings. */
  lemma RemoveKeepsNoDoubleBooking(s: seq<Appointment>, k: nat)
    requires k < |s| && NoDoubleBooking(s)
    ensures NoDoubleBooking(s[..k] + s[k + 1..])
  {
    var t := s[..k] + s[k + 1..];
    forall i, j | 0 <= i < j < |t| ensures Overlaps(t[i], t[j]) != Some(true) {
      RemovedIndex(s, k, i);
      RemovedIndex(s, k, j);
    }
  }

  /** Where the `i`-th booking after the removal came from. */
  lemma RemovedIndex(s: seq<Appointment>, k: nat, i: nat)
    requires k < |s| && i < |s| - 1
    ensures (s[..k] + s[k + 1..])[i] == if i < k then s[i] else s[i + 1]
  {
  }

  /** Moving one booking to the end keeps the collection free of double bookings. */
  lemma MoveToEndKeepsNoDoubleBooking(s: seq<Appointment>, k: nat)
    requires k < |s| && NoDoubleBooking(s)
    ensures NoDoubleBooking(s[..k] + s[k + 1..] + [s[k]])
  {
    var t := s[..k] + s[k + 1..] + [s[k]];
    forall i, j | 0 <= i < j < |t| ensures Overlaps(t[i], t[j]) != Some(true) {
      MovedIndex(s, k, i);
      MovedIndex(s, k, j);
      var i' := if i < k then i else i + 1;
      if j == |t| - 1 {
        if i' < k {
          assert Overlaps(s[i'], s[k]) != Some(true);
        } else {
          assert Overlaps(s[k], s[i']) != Some(true);
          OverlapsSymmetric(s[k], s[i']);
        }
      }
    }
  }

  /** Where the `i`-th booking after the move came from. */
  lemma MovedIndex(s: seq<Appointment>, k: nat, i: nat)
    requires k < |s| && i < |s|
    ensures (s[..k] + s[k + 1..] + [s[k]])[i] == if i == |s| - 1 then s[k] else if i < k then s[i] else s[i + 1]
  {
  }
}
