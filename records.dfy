/**
 * The file `appointments.txt` (main.cpp:411-448): one line per booking,
 * its five fields separated by '|', the duration written in decimal.
 * Saving writes every booking in order; loading reads line by line with
 * `std::getline`, skips a line that does not have all five fields and
 * converts the duration with `std::stoi`, whose exception is not caught
 * there. The file itself is text handed in and out: opening, reading
 * and writing the disk are not modelled.
 */
module Records {
  import opened Wrappers
  import opened TimeText
  import opened Appointments

  // Saving (main.cpp:436-448)

  /** The line of one booking, without its newline. */
  function RecordLine(a: Appointment): string
  {
    a.name + "|" + a.time + "|" + a.date + "|" + a.service + "|" + IntToString(a.duration)
  }

  /** The text written for one booking: its line and the newline of `std::endl`. */
  function EncodeRecord(a: Appointment): string
  {
    RecordLine(a) + "\n"
  }

  /** The whole file: the bookings' lines in collection order. */
  function EncodeAll(apts: seq<Appointment>): string
    decreases |apts|
  {
    if apts == [] then [] else EncodeRecord(apts[0]) + EncodeAll(apts[1..])
  }

  /** `saveAppointments` as the program runs it: one line per booking. */
  method SaveAppointments(apts: seq<Appointment>) returns (text: string)
    ensures text == EncodeAll(apts)
  {
    text := [];
    var i := 0;
    while i < |apts|
      invariant 0 <= i <= |apts|
      invariant text + EncodeAll(apts[i..]) == EncodeAll(apts)
    {
      var line := EncodeRecord(apts[i]);
      EncodeAllFrom(apts, i);
      AppendAssoc(text, line, EncodeAll(apts[i + 1..]));
      text := text + line;
      i := i + 1;
    }
    assert apts[i..] == [];
    assert text + [] == text;
  }

  /** The file from booking `i` on is that booking's text followed by the rest. */
  lemma EncodeAllFrom(apts: seq<Appointment>, i: nat)
    requires i < |apts|
    ensures EncodeAll(apts[i..]) == EncodeRecord(apts[i]) + EncodeAll(apts[i + 1..])
  {
    assert apts[i..][1..] == apts[i + 1..];
  }

  // Loading (main.cpp:411-433)

  /**
   * `std::getline(in, s, delim)`: fails when nothing is left to read;
   * otherwise reads up to the first `delim`, which it consumes, or to
   * the end. The field never holds `delim`, and field, delimiter and
   * rest make up the input again.
   */
  function GetLine(s: string, delim: char): (r: Option<(string, string)>)
    ensures r.None? <==> s == []
    ensures r.Some? ==> delim !in r.value.0
    ensures r.Some? ==> s == r.value.0 + [delim] + r.value.1 || (s == r.value.0 && r.value.1 == [])
    ensures r.Some? ==> |r.value.1| < |s|
  {
    if s == [] then None
    else
      var k := IndexOf(s, delim);
      assert delim !in s[..k];
      if k < |s| then
        assert s == s[..k] + [delim] + s[k + 1..];
        Some((s[..k], s[k + 1..]))
      else
        assert s[..k] == s;
        Some((s, []))
  }

  /** What one line yields: nothing, a booking, or the exception of `std::stoi`. */
  datatype LineResult = Skipped | Parsed(apt: Appointment) | BadDuration

  /**
   * The five reads of main.cpp:422-426: four fields ending at '|' and
   * the duration text running to the end of the line. When all five
   * succeed the duration is converted; when one fails the line is
   * skipped.
   */
  function ParseLine(line: string): LineResult
  {
    var f1 := GetLine(line, '|');
    if f1.None? then Skipped else
    var f2 := GetLine(f1.value.1, '|');
    if f2.None? then Skipped else
    var f3 := GetLine(f2.value.1, '|');
    if f3.None? then Skipped else
    var f4 := GetLine(f3.value.1, '|');
    if f4.None? then Skipped else
    var f5 := GetLine(f4.value.1, '\n');
    if f5.None? then Skipped else
    match Stoi(f5.value.0)
      case None => BadDuration
      case Some(n) => Parsed(Appointment(f1.value.0, f2.value.0, f3.value.0, f4.value.0, n))
  }

  /** `Some(p + rest)` when the rest could be read. */
  function Prepend(p: seq<Appointment>, rest: Option<seq<Appointment>>): Option<seq<Appointment>>
  {
    if rest.None? then None else Some(p + rest.value)
  }

  /**
   * The line loop of `loadAppointments` over the text still to read;
   * None when a duration throws, which ends the program at start-up.
   */
  function LoadText(text: string): Option<seq<Appointment>>
    decreases |text|
  {
    var l := GetLine(text, '\n');
    if l.None? then Some([])
    else match ParseLine(l.value.0)
      case Skipped => LoadText(l.value.1)
      case BadDuration => None
      case Parsed(a) => Prepend([a], LoadText(l.value.1))
  }

  /** `loadAppointments`: a missing file (None) loads nothing. */
  function LoadFile(file: Option<string>): Option<seq<Appointment>>
  {
    if file.None? then Some([]) else LoadText(file.value)
  }

  /** `loadAppointments` as the program runs it: one `getline` of the file per pass. */
  method LoadAppointments(file: Option<string>) returns (r: Option<seq<Appointment>>)
    ensures r == LoadFile(file)
  {
    if file.None? {
      return Some([]);
    }
    var appointments: seq<Appointment> := [];
    var rest := file.value;
    ghost var whole := LoadText(rest);
    assert whole.Some? ==> [] + whole.value == whole.value;
    while true
      invariant LoadText(file.value) == Prepend(appointments, LoadText(rest))
      decreases |rest|
    {
      var l := GetLine(rest, '\n');
      if l.None? {
        assert appointments + [] == appointments;
        return Some(appointments);
      }
      var parsed := ParseLine(l.value.0);
      if parsed.BadDuration? {
        return None;
      }
      if parsed.Parsed? {
        ghost var tail := LoadText(l.value.1);
        assert tail.Some? ==> appointments + ([parsed.apt] + tail.value) == (appointments + [parsed.apt]) + tail.value;
        appointments := appointments + [parsed.apt];
      }
      rest := l.value.1;
    }
  }

  // What survives a save and a load

  /**
   * A booking the file format can hold: no field contains the separator
   * or a newline, and the duration is within the range `std::stoi`
   * accepts.
   */
  predicate Storable(a: Appointment)
  {
    && '|' !in a.name && '|' !in a.time && '|' !in a.date && '|' !in a.service
    && '\n' !in a.name && '\n' !in a.time && '\n' !in a.date && '\n' !in a.service
    && IntMin <= a.duration <= IntMax
  }

  lemma ReadField(f: string, rest: string, delim: char)
    requires delim !in f
    ensures GetLine(f + [delim] + rest, delim) == Some((f, rest))
  {
    var s := f + [delim] + rest;
    var k := IndexOf(s, delim);
    assert s[|f|] == delim;
    assert s[..|f|] == f && s[|f| + 1..] == rest;
  }

  lemma ReadLastField(f: string, delim: char)
    requires delim !in f && f != []
    ensures GetLine(f, delim) == Some((f, []))
  {
  }

  lemma {:induction false} IntToStringHasNoSeparator(n: int)
    ensures '|' !in IntToString(n) && '\n' !in IntToString(n)
  {
    NoSeparatorInDigits(NatToString(if n < 0 then -n else n));
  }

  lemma NoSeparatorInDigits(s: string)
    requires AllDigits(s)
    ensures '|' !in s && '\n' !in s && '-' !in s
  {
    forall i | 0 <= i < |s| ensures s[i] != '|' && s[i] != '\n' && s[i] != '-' {
      assert IsDigit(s[i]);
    }
  }

  /** The line of a storable booking reads back as that booking. */
  lemma ParseRecordLine(a: Appointment)
    requires Storable(a)
    ensures ParseLine(RecordLine(a)) == Parsed(a)
  {
    var d := IntToString(a.duration);
    IntToStringHasNoSeparator(a.duration);
    StoiIntToString(a.duration);
    var tail4 := d;
    var tail3 := a.service + "|" + tail4;
    var tail2 := a.date + "|" + tail3;
    var tail1 := a.time + "|" + tail2;
    assert RecordLine(a) == a.name + "|" + tail1;
    ReadField(a.name, tail1, '|');
    ReadField(a.time, tail2, '|');
    ReadField(a.date, tail3, '|');
    ReadField(a.service, tail4, '|');
    ReadLastField(d, '\n');
  }

  /** Reading the file of storable bookings gives back the first one and the rest of the text. */
  lemma LoadRecord(a: Appointment, rest: string)
    requires Storable(a)
    ensures LoadText(EncodeRecord(a) + rest) == Prepend([a], LoadText(rest))
  {
    IntToStringHasNoSeparator(a.duration);
    assert '\n' !in RecordLine(a);
    assert EncodeRecord(a) + rest == RecordLine(a) + ['\n'] + rest;
    ReadField(RecordLine(a), rest, '\n');
    ParseRecordLine(a);
  }

  /**
   * Saving and loading again gives back the collection, in order, when
   * every booking is storable.
   */
  lemma {:induction false} SaveLoadRoundTrip(apts: seq<Appointment>)
    requires forall a | a in apts :: Storable(a)
    ensures LoadFile(Some(EncodeAll(apts))) == Some(apts)
    decreases |apts|
  {
    if apts == [] {
      assert LoadText([]) == Some([]);
    } else {
      assert apts[0] in apts;
      assert forall a | a in apts[1..] :: a in apts;
      SaveLoadRoundTrip(apts[1..]);
      LoadRecord(apts[0], EncodeAll(apts[1..]));
      assert apts == [apts[0]] + apts[1..];
    }
  }

  /** How many times `c` occurs in `s`. */
  function Occurrences(s: string, c: char): nat
    decreases |s|
  {
    if s == [] then 0 else (if s[0] == c then 1 else 0) + Occurrences(s[1..], c)
  }

  lemma {:induction false} OccurrencesAppend(x: string, y: string, c: char)
    ensures Occurrences(x + y, c) == Occurrences(x, c) + Occurrences(y, c)
    decreases |x|
  {
    if x == [] {
      assert x + y == y;
    } else {
      assert (x + y)[1..] == x[1..] + y;
      OccurrencesAppend(x[1..], y, c);
    }
  }

  lemma {:induction false} NoOccurrences(s: string, c: char)
    requires c !in s
    ensures Occurrences(s, c) == 0
    decreases |s|
  {
    if s != [] {
      NoOccurrences(s[1..], c);
    }
  }

  /** A field read that finds the separator uses one of them up; one that does not ends the text. */
  lemma ReadFieldCount(s: string)
    requires s != []
    ensures var r := GetLine(s, '|').value;
      r.1 == [] || Occurrences(r.1, '|') == Occurrences(s, '|') - 1
  {
    var r := GetLine(s, '|').value;
    NoOccurrences(r.0, '|');
    if s == r.0 + ['|'] + r.1 {
      OccurrencesAppend(r.0 + ['|'], r.1, '|');
      OccurrencesAppend(r.0, ['|'], '|');
      assert ['|'][1..] == [];
    }
  }

  /** A line with fewer than four separators has too few fields and is skipped. */
  lemma FewFieldsSkipped(line: string)
    requires Occurrences(line, '|') < 4
    ensures ParseLine(line) == Skipped
  {
    var f1 := GetLine(line, '|');
    if f1.Some? {
      ReadFieldCount(line);
      var f2 := GetLine(f1.value.1, '|');
      if f2.Some? {
        ReadFieldCount(f1.value.1);
        var f3 := GetLine(f2.value.1, '|');
        if f3.Some? {
          ReadFieldCount(f2.value.1);
          var f4 := GetLine(f3.value.1, '|');
          if f4.Some? {
            ReadFieldCount(f3.value.1);
            assert f4.value.1 == [];
          }
        }
      }
    }
  }

  /**
   * A line that yields a booking is its four fields, none holding the
   * separator, joined by '|' and followed by a non-empty duration text
   * that `std::stoi` reads as the duration.
   */
  lemma ParsedLineShape(line: string, a: Appointment)
    requires '\n' !in line
    requires ParseLine(line) == Parsed(a)
    ensures '|' !in a.name && '|' !in a.time && '|' !in a.date && '|' !in a.service
    ensures exists d: string | d != [] && Stoi(d) == Some(a.duration) ::
              line == a.name + "|" + a.time + "|" + a.date + "|" + a.service + "|" + d
  {
    var f1 := GetLine(line, '|').value;
    var f2 := GetLine(f1.1, '|').value;
    var f3 := GetLine(f2.1, '|').value;
    var f4 := GetLine(f3.1, '|').value;
    var d := GetLine(f4.1, '\n').value.0;
    ConsumedField(line, f1.0, f1.1);
    ConsumedField(f1.1, f2.0, f2.1);
    ConsumedField(f2.1, f3.0, f3.1);
    ConsumedField(f3.1, f4.0, f4.1);
    assert '\n' !in f4.1;
    assert d == f4.1;
    JoinFields(line, a.name, a.time, a.date, a.service, f1.1, f2.1, f3.1, d);
  }

  /** A field read that is followed by another read found its separator. */
  lemma ConsumedField(s: string, f: string, r: string)
    requires GetLine(s, '|') == Some((f, r)) && r != []
    ensures s == f + "|" + r
  {
  }

  lemma JoinFields(line: string, a: string, b: string, c: string, e: string, r1: string, r2: string, r3: string, d: string)
    requires line == a + "|" + r1 && r1 == b + "|" + r2 && r2 == c + "|" + r3 && r3 == e + "|" + d
    ensures line == a + "|" + b + "|" + c + "|" + e + "|" + d
  {
  }

  /** Text that starts with a letter has no number for `std::stoi`. */
  lemma StoiOfWord(s: string)
    requires s != [] && 'a' <= s[0] <= 'z'
    ensures Stoi(s) == None
  {
    assert SkipSpace(s) == s;
  }

  /**
   * A '|' typed into a booking's name shifts the fields of its line: the
   * service lands in the duration field, and when the service is a word
   * (hair, beard, full) the file saved with it cannot be loaded, because
   * `std::stoi` throws on it.
   */
  lemma SeparatorInNameBreaksFile(a: Appointment, x: string, y: string)
    requires a.name == x + "|" + y && '|' !in x && '|' !in y
    requires Storable(a.(name := x))
    requires '\n' !in y
    requires a.service != [] && 'a' <= a.service[0] <= 'z'
    ensures LoadFile(Some(EncodeAll([a]))) == None
  {
    var d := IntToString(a.duration);
    IntToStringHasNoSeparator(a.duration);
    var t4 := a.service + "|" + d;
    var t3 := a.date + "|" + t4;
    var t2 := a.time + "|" + t3;
    var t1 := y + "|" + t2;
    var line := RecordLine(a);
    assert line == x + "|" + t1;
    assert '\n' !in line;
    assert EncodeAll([a]) == line + ['\n'] + [] by {
      assert EncodeAll([a][1..]) == [];
    }
    ReadField(line, [], '\n');
    ReadField(x, t1, '|');
    ReadField(y, t2, '|');
    ReadField(a.time, t3, '|');
    ReadField(a.date, t4, '|');
    ReadLastField(t4, '\n');
    StoiOfWord(t4);
  }
}
