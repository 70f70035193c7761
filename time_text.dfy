/**
 * Time text: the conversions between the 12-hour clock strings the
 * operator types ("10am", "2:30pm") and minutes since midnight, the
 * integer parsing of `std::stoi` they rest on, and the mapping from a
 * service label to a duration.
 */
module TimeText {
  import opened Wrappers

  /** The range of a C++ `int`; `std::stoi` throws outside it. */
  const IntMin: int := -0x8000_0000
  const IntMax: int := 0x7fff_ffff

  predicate IsDigit(c: char) { '0' <= c <= '9' }

  /** `isspace` in the C locale: space, and the characters 9 to 13. */
  predicate IsSpace(c: char) { c == ' ' || 9 <= c as int <= 13 }

  predicate AllDigits(s: string) { forall i | 0 <= i < |s| :: IsDigit(s[i]) }

  /** Characters kept by the clean-up step of `timeToMinutes`. */
  predicate IsClockChar(c: char) { IsDigit(c) || c == ':' }

  predicate ClockText(s: string) { forall i | 0 <= i < |s| :: IsClockChar(s[i]) }

  function DigitValue(c: char): nat
    requires IsDigit(c)
  {
    (c as int) - ('0' as int)
  }

  function DigitChar(d: nat): (c: char)
    requires d < 10
    ensures IsDigit(c) && DigitValue(c) == d
  {
    (('0' as int) + d) as char
  }

  /** The decimal value of a string of digits, most significant first. */
  function DigitsValue(s: string): nat
    requires AllDigits(s)
    decreases |s|
  {
    if s == [] then 0 else DigitsValue(s[..|s| - 1]) * 10 + DigitValue(s[|s| - 1])
  }

  /** Decimal text of a natural number, without leading zeros (`oss << n`). */
  function NatToString(n: nat): (s: string)
    ensures s != [] && AllDigits(s) && DigitsValue(s) == n
    ensures n < 10 <==> |s| == 1
    decreases n
  {
    if n < 10 then [DigitChar(n)]
    else
      var s := NatToString(n / 10) + [DigitChar(n % 10)];
      assert s[..|s| - 1] == NatToString(n / 10);
      s
  }

  /** Decimal text of an integer, with a leading '-' when negative. */
  function IntToString(n: int): (s: string)
    ensures s != []
  {
    if n < 0 then "-" + NatToString(-n) else NatToString(n)
  }

  /** Two digits with a leading zero: `setfill('0') << setw(2)` for a value below 100. */
  function TwoDigits(m: nat): (s: string)
    requires m < 100
    ensures |s| == 2 && AllDigits(s) && DigitsValue(s) == m
  {
    var s := [DigitChar(m / 10), DigitChar(m % 10)];
    assert s[..1] == [DigitChar(m / 10)];
    assert [DigitChar(m / 10)][..0] == [];
    assert DigitsValue(s[..1]) == m / 10;
    s
  }

  /** The length of the longest prefix of `s` made of digits. */
  function DigitPrefix(s: string): (k: nat)
    ensures k <= |s| && AllDigits(s[..k])
    ensures k < |s| ==> !IsDigit(s[k])
  {
    if s == [] || !IsDigit(s[0]) then 0
    else
      var k := 1 + DigitPrefix(s[1..]);
      assert s[..k] == [s[0]] + s[1..][..k - 1];
      k
  }

  /** `s` with its leading white space removed. */
  function SkipSpace(s: string): (t: string)
    ensures t != [] ==> !IsSpace(t[0])
  {
    if s != [] && IsSpace(s[0]) then SkipSpace(s[1..]) else s
  }

  /**
   * `std::stoi(s)`: leading white space, an optional sign, then the
   * longest run of digits; anything after the digits is ignored. None
   * stands for the exception it throws: no digit at all
   * (`std::invalid_argument`) or a value outside `int`
   * (`std::out_of_range`).
   */
  function Stoi(s: string): (r: Option<int>)
    ensures r.Some? ==> IntMin <= r.value <= IntMax
  {
    var t := SkipSpace(s);
    var signed := |t| > 0 && (t[0] == '-' || t[0] == '+');
    var u := if signed then t[1..] else t;
    var k := DigitPrefix(u);
    if k == 0 then None
    else
      var magnitude: int := DigitsValue(u[..k]);
      var v: int := if signed && t[0] == '-' then -magnitude else magnitude;
      if IntMin <= v <= IntMax then Some(v) else None
  }

  /** `s.find(ab) != npos` for the two-character string `[a, b]`. */
  function HasPair(s: string, a: char, b: char): bool
  {
    |s| >= 2 && ((s[0] == a && s[1] == b) || HasPair(s[1..], a, b))
  }

  /** The `remove_if` step: drop every character that is not a digit or ':'. */
  function KeepClockChars(s: string): (t: string)
    ensures ClockText(t) && |t| <= |s|
  {
    if s == [] then []
    else if IsClockChar(s[0]) then [s[0]] + KeepClockChars(s[1..])
    else KeepClockChars(s[1..])
  }

  /** The index of the first `c` in `s`, or |s| when there is none (`find`). */
  function IndexOf(s: string, c: char): (k: nat)
    ensures k <= |s|
    ensures k < |s| ==> s[k] == c
    ensures forall i | 0 <= i < k :: s[i] != c
  {
    if s == [] then 0
    else if s[0] == c then 0
    else 1 + IndexOf(s[1..], c)
  }

  /**
   * `timeToMinutes` (main.cpp:185-212), with None where `std::stoi`
   * throws. A "pm"/"PM" anywhere makes the time afternoon; with a
   * meridiem present the text is reduced to its digits and colons; the
   * hour is the text before the first ':' and the minutes the text after
   * it. Twelve o'clock becomes hour 0 unless the time is afternoon, and
   * that rule applies when there is no suffix at all ("12" is midnight).
   */
  function TimeToMinutes(s: string): Option<int>
  {
    var isPM := HasPair(s, 'p', 'm') || HasPair(s, 'P', 'M');
    var isAM := HasPair(s, 'a', 'm') || HasPair(s, 'A', 'M');
    ReadClock(if isPM || isAM then KeepClockChars(s) else s, isPM)
  }

  /** The second half of `timeToMinutes`: split at the first ':' and adjust the hour. */
  function ReadClock(t: string, isPM: bool): Option<int>
  {
    var colon := IndexOf(t, ':');
    if colon < |t| then HourAndMinutes(Stoi(t[..colon]), Stoi(t[colon + 1..]), isPM)
    else HourAndMinutes(Stoi(t), Some(0), isPM)
  }

  /** Minutes since midnight from the parsed hour and minutes, when both parsed. */
  function HourAndMinutes(hours: Option<int>, minutes: Option<int>, isPM: bool): Option<int>
  {
    if hours.None? || minutes.None? then None
    else Some(AdjustHour(hours.value, isPM) * 60 + minutes.value)
  }

  /** Afternoon hours other than 12 move on by 12; otherwise hour 12 is hour 0. */
  function AdjustHour(h: int, isPM: bool): int
  {
    if isPM && h != 12 then h + 12 else if !isPM && h == 12 then 0 else h
  }

  /**
   * `minutesToTime` (main.cpp:215-227): the hour on a 12-hour clock (0
   * shown as 12), then ":MM" with a leading zero only when the minutes
   * are not 0, then "pm" from hour 12 on and "am" before.
   */
  function MinutesToTime(minutes: nat): (s: string)
  {
    var hours := minutes / 60;
    ClockFace(NatToString(TwelveHour(hours)), minutes % 60, hours >= 12)
  }

  /** The text of the hour written `hs` and minute `mins` on a 12-hour clock face. */
  function ClockFace(hs: string, mins: nat, isPM: bool): (s: string)
    requires mins < 60
  {
    hs + (if mins > 0 then ":" + TwoDigits(mins) else "") + (if isPM then "pm" else "am")
  }

  /** The hour on a 12-hour clock face: hours after 12 lose 12, and 0 shows as 12. */
  function TwelveHour(hours: nat): nat
  {
    var h := if hours > 12 then hours - 12 else hours;
    if h == 0 then 12 else h
  }

  /**
   * `parseServiceDuration` (main.cpp:171-182): the fixed services, else
   * the label read as a number, else -1.
   */
  function ParseServiceDuration(service: string): int
  {
    if service == "hair" || service == "haircut" then 30
    else if service == "beard" then 15
    else if service == "full" || service == "both" then 45
    else Stoi(service).GetOr(-1)
  }

  // ---------------------------------------------------------------------
  // Lemmas

  lemma {:induction false} StoiOfDigits(s: string)
    requires s != [] && AllDigits(s) && DigitsValue(s) <= IntMax
    ensures Stoi(s) == Some(DigitsValue(s))
  {
    assert SkipSpace(s) == s;
    DigitPrefixOfDigits(s);
    assert s[..|s|] == s;
  }

  lemma {:induction false} DigitPrefixOfDigits(s: string)
    requires AllDigits(s)
    ensures DigitPrefix(s) == |s|
  {
    if s != [] {
      DigitPrefixOfDigits(s[1..]);
    }
  }

  /** Reading back the decimal text of any `int` gives the same number. */
  lemma {:induction false} StoiIntToString(n: int)
    requires IntMin <= n <= IntMax
    ensures Stoi(IntToString(n)) == Some(n)
  {
    if n < 0 {
      var d := NatToString(-n);
      var s := "-" + d;
      assert s[0] == '-' && s[1..] == d;
      assert SkipSpace(s) == s;
      DigitPrefixOfDigits(d);
      assert d[..|d|] == d;
    } else {
      StoiOfDigits(NatToString(n));
    }
  }

  /** A service label that is a number of minutes is read as that number. */
  lemma {:induction false} ServiceDurationOfNumber(n: nat)
    requires n <= IntMax
    ensures ParseServiceDuration(NatToString(n)) == n
  {
    var s := NatToString(n);
    assert IsDigit(s[0]);
    assert s != "hair" && s != "haircut" && s != "beard" && s != "full" && s != "both" by {
      assert !IsDigit('h') && !IsDigit('b') && !IsDigit('f');
    }
    StoiOfDigits(s);
  }

  lemma {:induction false} NoPairWithoutFirst(s: string, a: char, b: char)
    requires forall i | 0 <= i < |s| :: s[i] != a
    ensures !HasPair(s, a, b)
  {
    if |s| >= 2 {
      NoPairWithoutFirst(s[1..], a, b);
    }
  }

  /** In clock text followed by two letters, a letter pair occurs only at the end. */
  lemma {:induction false} PairInClockTextSuffix(x: string, p: char, q: char, a: char, b: char)
    requires ClockText(x) && !IsClockChar(a)
    ensures HasPair(x + [p, q], a, b) <==> (p == a && q == b)
  {
    if x == [] {
      assert [p, q][1..] == [q];
    } else {
      assert (x + [p, q])[1..] == x[1..] + [p, q];
      PairInClockTextSuffix(x[1..], p, q, a, b);
    }
  }

  lemma {:induction false} KeepClockCharsAppend(x: string, y: string)
    ensures KeepClockChars(x + y) == KeepClockChars(x) + KeepClockChars(y)
  {
    if x != [] {
      assert (x + y)[1..] == x[1..] + y;
      KeepClockCharsAppend(x[1..], y);
    } else {
      assert x + y == y;
    }
  }

  lemma {:induction false} KeepClockCharsOfClockText(x: string)
    requires ClockText(x)
    ensures KeepClockChars(x) == x
  {
    if x != [] {
      KeepClockCharsOfClockText(x[1..]);
    }
  }

  lemma {:induction false} IndexOfAfterDigits(x: string, y: string)
    requires AllDigits(x)
    ensures IndexOf(x + y, ':') == |x| + IndexOf(y, ':')
  {
    if x != [] {
      assert (x + y)[1..] == x[1..] + y;
      IndexOfAfterDigits(x[1..], y);
    } else {
      assert x + y == y;
    }
  }

  /** Twelve o'clock without a suffix is read as midnight. */
  lemma {:induction false} TwelveWithoutSuffixIsMidnight()
    ensures TimeToMinutes("12") == Some(0)
  {
    assert !HasPair("12", 'p', 'm') && !HasPair("12", 'P', 'M');
    assert !HasPair("12", 'a', 'm') && !HasPair("12", 'A', 'M');
    StoiOfDigits("12");
  }

  /**
   * Clock text followed by "am", "pm", "AM" or "PM" is read as the clock
   * text alone, in the afternoon exactly for the two "pm" spellings.
   */
  lemma {:induction false} ReadMeridiem(x: string, per: string)
    requires ClockText(x)
    requires per == "am" || per == "pm" || per == "AM" || per == "PM"
    ensures TimeToMinutes(x + per) == ReadClock(x, per == "pm" || per == "PM")
  {
    var s := x + per;
    assert per == [per[0], per[1]];
    PairInClockTextSuffix(x, per[0], per[1], 'p', 'm');
    PairInClockTextSuffix(x, per[0], per[1], 'P', 'M');
    PairInClockTextSuffix(x, per[0], per[1], 'a', 'm');
    PairInClockTextSuffix(x, per[0], per[1], 'A', 'M');
    assert (HasPair(s, 'p', 'm') || HasPair(s, 'P', 'M')) == (per == "pm" || per == "PM");
    assert HasPair(s, 'a', 'm') || HasPair(s, 'p', 'm') || HasPair(s, 'A', 'M') || HasPair(s, 'P', 'M');
    KeepClockCharsAppend(x, per);
    KeepClockCharsOfClockText(x);
    assert KeepClockChars(per) == [];
    assert KeepClockChars(s) == x;
  }

  /** Clock text with no suffix is read as it stands, as a morning time. */
  lemma {:induction false} ReadWithoutSuffix(x: string)
    requires ClockText(x)
    ensures TimeToMinutes(x) == ReadClock(x, false)
  {
    NoPairWithoutFirst(x, 'p', 'm');
    NoPairWithoutFirst(x, 'P', 'M');
    NoPairWithoutFirst(x, 'a', 'm');
    NoPairWithoutFirst(x, 'A', 'M');
  }

  /** "14" with no suffix is read as it stands: 2pm. */
  lemma FourteenAsItStands()
    ensures TimeToMinutes("14") == Some(840)
  {
    ReadWithoutSuffix("14");
    assert DigitsValue("14") == 14 by { assert "14"[..1] == "1"; }
    StoiOfDigits("14");
    ReadHourOnly("14", 14, false);
  }

  /** The upper-case "PM" makes "2PM" 2pm. */
  lemma TwoPmUpperCase()
    ensures TimeToMinutes("2PM") == Some(840)
  {
    assert "2PM" == "2" + "PM";
    ReadMeridiem("2", "PM");
    StoiOfDigits("2");
    ReadHourOnly("2", 2, true);
  }

  /** The mixed-case "Pm" is no suffix at all, so "2Pm" is read as hour 2 in the morning. */
  lemma MixedCaseSuffix()
    ensures TimeToMinutes("2Pm") == Some(120)
  {
    var s := "2Pm";
    assert !HasPair(s, 'p', 'm') && !HasPair(s, 'P', 'M') && !HasPair(s, 'a', 'm') && !HasPair(s, 'A', 'M');
    assert SkipSpace(s) == s;
    assert DigitPrefix(s) == 1 by { assert DigitPrefix(s[1..]) == 0; }
    assert s[..1] == "2";
    assert DigitsValue("2") == 2 by { assert "2"[..0] == ""; }
    assert Stoi(s) == Some(2);
    assert IndexOf(s, ':') == 3 by { assert s[1..][1..][1..] == []; }
  }

  /** Clock text with a ':' is read from the numbers on either side of it. */
  lemma {:induction false} ReadClockAtColon(x: string, isPM: bool, colon: nat, h: int, m: int, v: int)
    requires IndexOf(x, ':') == colon < |x|
    requires Stoi(x[..colon]) == Some(h) && Stoi(x[colon + 1..]) == Some(m)
    requires v == AdjustHour(h, isPM) * 60 + m
    ensures ReadClock(x, isPM) == Some(v)
  {
    ReadClockSplits(x, isPM, colon);
  }

  lemma {:induction false} ReadClockSplits(x: string, isPM: bool, colon: nat)
    requires IndexOf(x, ':') == colon < |x|
    ensures ReadClock(x, isPM) == HourAndMinutes(Stoi(x[..colon]), Stoi(x[colon + 1..]), isPM)
  {
  }

  /** An hour alone is read as that hour on the hour. */
  lemma {:induction false} ReadHourOnly(hs: string, h: int, isPM: bool)
    requires AllDigits(hs) && Stoi(hs) == Some(h)
    ensures ReadClock(hs, isPM) == Some(AdjustHour(h, isPM) * 60)
  {
    IndexOfAfterDigits(hs, "");
    assert hs + "" == hs;
    var r := ReadClock(hs, isPM);
    assert r.Some?;
    assert r.value == AdjustHour(h, isPM) * 60;
  }

  /** "H:M" is read as hour H and M minutes. */
  lemma {:induction false} ReadHourAndMinutes(hs: string, h: int, ms: string, mm: int, isPM: bool, x: string, v: int)
    requires AllDigits(hs) && Stoi(hs) == Some(h)
    requires Stoi(ms) == Some(mm)
    requires x == hs + (":" + ms)
    requires v == AdjustHour(h, isPM) * 60 + mm
    ensures ReadClock(x, isPM) == Some(v)
  {
    SplitAtColon(hs, ms, x);
    ReadClockAtColon(x, isPM, |hs|, h, mm, v);
  }

  /** The first ':' after a run of digits splits the text back into its parts. */
  lemma {:induction false} SplitAtColon(hs: string, ms: string, x: string)
    requires AllDigits(hs)
    requires x == hs + (":" + ms)
    ensures IndexOf(x, ':') == |hs| < |x|
    ensures x[..|hs|] == hs && x[|hs| + 1..] == ms
  {
    IndexOfAfterDigits(hs, ":" + ms);
    assert x[..|hs|] == hs;
    assert x[|hs| + 1..] == ms;
  }

  lemma {:induction false} StoiNatToString(n: nat)
    requires n <= IntMax
    ensures Stoi(NatToString(n)) == Some(n)
  {
    StoiOfDigits(NatToString(n));
  }

  lemma {:induction false} StoiTwoDigits(m: nat)
    requires m < 100
    ensures Stoi(TwoDigits(m)) == Some(m)
  {
    StoiOfDigits(TwoDigits(m));
  }

  /** The 12-hour clock reading of minute `m` of a day, read back on a 24-hour clock, is `m`. */
  lemma {:induction false} TwelveHourUndone(m: nat)
    requires m < 1440
    ensures m == AdjustHour(TwelveHour(m / 60), m / 60 >= 12) * 60 + m % 60
  {
  }

  /** Clock text is closed under concatenation. */
  lemma {:induction false} ClockTextAppend(a: string, b: string)
    requires ClockText(a) && ClockText(b)
    ensures ClockText(a + b)
  {
    forall i | 0 <= i < |a + b| ensures IsClockChar((a + b)[i]) {
      if i >= |a| {
        assert (a + b)[i] == b[i - |a|];
      }
    }
  }

  /** Clock text with a meridiem suffix is read as its clock reading. */
  lemma {:induction false} ReadSuffixedClock(x: string, isPM: bool, text: string, v: Option<int>)
    requires ClockText(x)
    requires text == x + (if isPM then "pm" else "am")
    requires ReadClock(x, isPM) == v
    ensures TimeToMinutes(text) == v
  {
    ReadMeridiem(x, if isPM then "pm" else "am");
  }

  /** "H:Mam" / "H:Mpm" is read as that hour and minute. */
  lemma {:induction false} ReadFaceWithMinutes(hs: string, h: int, ms: string, mm: int, isPM: bool, x: string, text: string, v: int)
    requires AllDigits(hs) && Stoi(hs) == Some(h)
    requires AllDigits(ms) && Stoi(ms) == Some(mm)
    requires x == hs + (":" + ms)
    requires text == x + (if isPM then "pm" else "am")
    requires v == AdjustHour(h, isPM) * 60 + mm
    ensures TimeToMinutes(text) == Some(v)
  {
    ClockTextAppend(":", ms);
    ClockTextAppend(hs, ":" + ms);
    ReadHourAndMinutes(hs, h, ms, mm, isPM, x, v);
    ReadSuffixedClock(x, isPM, text, Some(v));
  }

  /** "Ham" / "Hpm" is read as that hour on the hour. */
  lemma {:induction false} ReadFaceOnTheHour(hs: string, h: int, isPM: bool, text: string, v: int)
    requires AllDigits(hs) && Stoi(hs) == Some(h)
    requires text == hs + (if isPM then "pm" else "am")
    requires v == AdjustHour(h, isPM) * 60
    ensures TimeToMinutes(text) == Some(v)
  {
    ReadHourOnly(hs, h, isPM);
    ReadSuffixedClock(hs, isPM, text, Some(v));
  }

  /** A clock face is read back as the hour and minute it shows. */
  lemma {:induction false} ReadClockFace(hs: string, h: int, mins: nat, isPM: bool, v: int)
    requires AllDigits(hs) && Stoi(hs) == Some(h)
    requires mins < 60
    requires v == AdjustHour(h, isPM) * 60 + mins
    ensures TimeToMinutes(ClockFace(hs, mins, isPM)) == Some(v)
  {
    if mins > 0 {
      StoiTwoDigits(mins);
      ReadFaceWithMinutes(hs, h, TwoDigits(mins), mins, isPM, hs + (":" + TwoDigits(mins)), ClockFace(hs, mins, isPM), v);
    } else {
      ReadFaceOnTheHour(hs, h, isPM, ClockFace(hs, mins, isPM), v);
    }
  }

  /**
   * Formatting a time of day and parsing it back gives the same minute:
   * `timeToMinutes(minutesToTime(m)) == m` for every m in a day.
   */
  lemma {:induction false} TimeRoundTrip(m: nat)
    requires m < 1440
    ensures TimeToMinutes(MinutesToTime(m)) == Some(m)
  {
    var h := TwelveHour(m / 60);
    TwelveHourUndone(m);
    StoiNatToString(h);
    ReadClockFace(NatToString(h), h, m % 60, m / 60 >= 12, m);
  }

  /** Decimal digits hold no ':' and no letter. */
  lemma DigitsAreNotSeparators(s: string)
    requires AllDigits(s)
    ensures ':' !in s && 'a' !in s && 'p' !in s && 'm' !in s
  {
    forall i | 0 <= i < |s| ensures s[i] != ':' && s[i] != 'a' && s[i] != 'p' && s[i] != 'm' {
      assert IsDigit(s[i]);
    }
  }

  /**
   * The shape of a clock text: it ends in "pm" exactly from noon on and
   * in "am" before, it has a ':' exactly when the minutes are not 0, and
   * the hours of midnight and of noon are both written 12.
   */
  lemma MinutesToTimeShape(m: nat)
    requires m < 1440
    ensures var s := MinutesToTime(m);
      && |s| >= 3
      && (s[|s| - 2..] == "pm" <==> m >= 720)
      && (s[|s| - 2..] == "am" <==> m < 720)
      && (':' in s <==> m % 60 != 0)
      && (m < 60 || 720 <= m < 780 ==> s[..2] == "12")
  {
    var hours := m / 60;
    var hs := NatToString(TwelveHour(hours));
    var mins := m % 60;
    var mid := if mins > 0 then ":" + TwoDigits(mins) else "";
    var per := if hours >= 12 then "pm" else "am";
    var s := MinutesToTime(m);
    assert s == hs + mid + per;
    assert s[|s| - 2..] == per;
    DigitsAreNotSeparators(hs);
    if mins > 0 {
      assert s[|hs|] == ':';
    } else {
      assert ':' !in per;
      assert forall i | 0 <= i < |s| :: s[i] == (if i < |hs| then hs[i] else per[i - |hs|]);
    }
    if m < 60 || 720 <= m < 780 {
      assert TwelveHour(hours) == 12;
      assert hs == "12";
    }
  }

  /** The named services have their fixed durations; every other word is read as a number or is -1. */
  lemma ServiceDurations(service: string)
    ensures ParseServiceDuration("hair") == 30 && ParseServiceDuration("haircut") == 30
    ensures ParseServiceDuration("beard") == 15
    ensures ParseServiceDuration("full") == 45 && ParseServiceDuration("both") == 45
    ensures service !in ["hair", "haircut", "beard", "full", "both"] ==>
              ParseServiceDuration(service) == if Stoi(service).Some? then Stoi(service).value else -1
    ensures ParseServiceDuration(service) <= 0 <==>
              service !in ["hair", "haircut", "beard", "full", "both"] && (Stoi(service).None? || Stoi(service).value <= 0)
  {
  }
}
