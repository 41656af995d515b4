/** Date.prototype.toISOString and the parser of the same format (sections 21.4.1.32 and 21.4.3.2 of
    ECMA-262, 2024). Time values are integers; the one place where binary64 rounding matters, the
    division by the length of a day, is treated with an explicit model of rounding. */
module IsoDate {
  import opened Binary64
  import opened Calendar
  import opened Options
  import opened TimeValue

  const DAY := 86400000

  // ---- rounding to nearest ----

  lemma PowerMinus26()
    ensures Power(-26) == 1.0 / 67108864.0
  {
    assert Power(-4) == 1.0 / 16.0;
    assert Power(-8) == 1.0 / 256.0;
    assert Power(-12) == 1.0 / 4096.0;
    assert Power(-16) == 1.0 / 65536.0;
    assert Power(-20) == 1.0 / 1048576.0;
    assert Power(-24) == 1.0 / 16777216.0;
  }

  /** The floor of the rounded quotient is the exact floor, for every time value a Date can hold. */
  lemma FlooredQuotientExact(time: int, q: real)
    requires -MAX_TIME <= time <= MAX_TIME && Nearest(q, time as real / 86400000.0)
    ensures q.Floor == time / DAY
  {
    var x := time as real / 86400000.0;
    var f := time / DAY;
    assert f as real <= x <= (f + 1) as real - 1.0 / 86400000.0 by {
      assert time == DAY * f + time % DAY;
      assert time as real == 86400000.0 * f as real + (time % DAY) as real;
    }
    assert IsBinary64(f as real) by { assert Represents(f as real, f, 0); }
    PowerMinus26();
    var k := (x * 67108864.0 + 0.5).Floor;
    var s := k as real * Power(-26);
    assert IsBinary64(s) by { assert Represents(s, k, -26); }
    assert Distance(s, x) <= 1.0 / 134217728.0;
    assert Distance(q, x) <= Distance(s, x);
    assert Distance(q, x) <= Distance(f as real, x);
  }

  // ---- printing ----

  function Digit(n: int): char
    requires 0 <= n <= 9
  {
    '0' + n as char
  }

  function Pow10(width: nat): (p: nat)
    ensures p > 0
  {
    if width == 0 then 1 else 10 * Pow10(width - 1)
  }

  /** Decimal with leading zeros up to `width`. */
  function Pad(n: int, width: nat): (s: string)
    requires 0 <= n < Pow10(width)
    ensures |s| == width
  {
    if width == 0 then "" else Pad(n / 10, width - 1) + [Digit(n % 10)]
  }

  lemma Pow10Values()
    ensures Pow10(2) == 100 && Pow10(3) == 1000 && Pow10(4) == 10000 && Pow10(6) == 1000000
  {
    assert Pow10(5) == 100000;
  }

  function YearText(year: int): string
    requires -999999 <= year <= 999999
  {
    Pow10Values();
    if year < 0 then "-" + Pad(-year, 6) else if year > 9999 then "+" + Pad(year, 6) else Pad(year, 4)
  }

  function DateText(c: Civil): string
    requires IsDate(c)
  {
    Pow10Values();
    "-" + Pad(c.month, 2) + "-" + Pad(c.date, 2)
  }

  function ClockText(millis: int): string
    requires 0 <= millis < DAY
  {
    Pow10Values();
    "T" + Pad(millis / 3600000, 2) + ":" + Pad(millis / 60000 % 60, 2) + ":" + Pad(millis / 1000 % 60, 2)
    + "." + Pad(millis % 1000, 3) + "Z"
  }

  /** Every day of a Date has a year of at most six digits. */
  lemma YearFits(day: int)
    requires -100000000 <= day <= 100000000
    ensures -999999 <= CivilFromDays(day).year <= 999999
  {
    CivilIsDate(day);
    var c, low, high := CivilFromDays(day), Civil(-999999, 1, 1), Civil(999999, 12, 31);
    assert DaysFromCivil(low) < -100000000 && DaysFromCivil(high) > 100000000;
    hide CivilFromDays, DaysFromCivil;
    if c.year < -999999 { DaysOrdered(c, low); }
    if c.year > 999999 { DaysOrdered(high, c); }
  }

  /** The ISO text of a time value whose rounded day quotient is q; None is the RangeError. */
  function ToIso(time: int, q: real): Option<string>
    requires -MAX_TIME <= time <= MAX_TIME ==> q.Floor == time / DAY
  {
    if !(-MAX_TIME <= time <= MAX_TIME) then None
    else
      var day := q.Floor;
      YearFits(day);
      CivilIsDate(day);
      var c := CivilFromDays(day);
      Some(YearText(c.year) + DateText(c) + ClockText(time - day * DAY))
  }

  // ---- parsing ----

  function DigitsOf(s: string): Option<int> {
    if s == "" then Some(0)
    else
      var before, c := DigitsOf(s[..|s| - 1]), s[|s| - 1];
      if before.None? || !('0' <= c <= '9') then None else Some(before.value * 10 + (c as int - '0' as int))
  }

  /** `count` digits at the cursor. */
  function Take(s: string, cursor: nat, count: nat): Option<int> {
    if cursor + count > |s| then None else DigitsOf(s[cursor..cursor + count])
  }

  /** The digit loop. */
  method TakeDigits(s: string, cursor: nat, count: nat) returns (r: Option<int>, next: nat)
    ensures r == Take(s, cursor, count)
    ensures next == if r.Some? then cursor + count else cursor
  {
    next := cursor;
    if cursor + count > |s| {
      return None, cursor;
    }
    var value := 0;
    for i := 0 to count
      invariant DigitsOf(s[cursor..cursor + i]) == Some(value)
    {
      var c := s[cursor + i];
      assert s[cursor..cursor + i + 1][..i] == s[cursor..cursor + i];
      if !('0' <= c <= '9') {
        NoDigits(s[cursor..cursor + count], i);
        return None, cursor;
      }
      value := value * 10 + (c as int - '0' as int);
    }
    return Some(value), cursor + count;
  }

  lemma {:induction false} NoDigits(s: string, i: nat)
    requires i < |s| && !('0' <= s[i] <= '9')
    ensures DigitsOf(s) == None
    decreases |s|
  {
    if i < |s| - 1 { NoDigits(s[..|s| - 1], i); }
  }

  function At(s: string, cursor: nat, c: char): bool {
    cursor < |s| && s[cursor] == c
  }

  datatype Fields = Fields(year: int, month: int, date: int, hours: int, minutes: int, seconds: int, ms: int)

  function MakeMs(f: Fields): Option<int> {
    if !(1 <= f.month <= 12) || !(1 <= f.date <= 31) || f.hours > 24 || f.minutes > 59 || f.seconds > 59
       || (f.hours == 24 && (f.minutes != 0 || f.seconds != 0 || f.ms != 0))
    then None
    else Some(DaysFromCivil(Civil(f.year, f.month, f.date)) * DAY
              + f.hours * 3600000 + f.minutes * 60000 + f.seconds * 1000 + f.ms)
  }

  datatype Cursor<T> = Stop | Go(value: T, next: nat)

  /** Four digits, or a sign and six; minus zero is refused. */
  function ParseYear(s: string): Cursor<int> {
    if At(s, 0, '+') || At(s, 0, '-') then
      var year := Take(s, 1, 6);
      if year.None? || (s[0] == '-' && year.value == 0) then Stop
      else Go(if s[0] == '-' then -year.value else year.value, 7)
    else
      var year := Take(s, 0, 4);
      if year.None? then Stop else Go(year.value, 4)
  }

  function ParseDay(s: string, cursor: nat): Cursor<(int, int)> {
    if !At(s, cursor, '-') then Go((1, 1), cursor)
    else
      var month := Take(s, cursor + 1, 2);
      if month.None? then Stop
      else if !At(s, cursor + 3, '-') then Go((month.value, 1), cursor + 3)
      else
        var date := Take(s, cursor + 4, 2);
        if date.None? then Stop else Go((month.value, date.value), cursor + 6)
  }

  function ParseClock(s: string, cursor: nat): Cursor<(int, int, int, int)> {
    if !At(s, cursor, 'T') then Stop
    else
      var hours := Take(s, cursor + 1, 2);
      if hours.None? || !At(s, cursor + 3, ':') then Stop
      else
        var minutes := Take(s, cursor + 4, 2);
        if minutes.None? then Stop
        else if !At(s, cursor + 6, ':') then Go((hours.value, minutes.value, 0, 0), cursor + 6)
        else
          var seconds := Take(s, cursor + 7, 2);
          if seconds.None? then Stop
          else if !At(s, cursor + 9, '.') then Go((hours.value, minutes.value, seconds.value, 0), cursor + 9)
          else
            var ms := Take(s, cursor + 10, 3);
            if ms.None? then Stop else Go((hours.value, minutes.value, seconds.value, ms.value), cursor + 13)
  }

  /** The zone must be given: Z, or a signed hours and minutes offset; its value in milliseconds. */
  function ParseZone(s: string, cursor: nat): Cursor<int> {
    if At(s, cursor, 'Z') then Go(0, cursor + 1)
    else if At(s, cursor, '+') || At(s, cursor, '-') then
      var hours := Take(s, cursor + 1, 2);
      if hours.None? || !At(s, cursor + 3, ':') then Stop
      else
        var minutes := Take(s, cursor + 4, 2);
        if minutes.None? || hours.value > 23 || minutes.value > 59 then Stop
        else
          var value := (hours.value * 60 + minutes.value) * 60000;
          Go(if s[cursor] == '-' then -value else value, cursor + 6)
    else Stop
  }

  /** The ECMAScript branch of the parser; None is NaN. */
  function Parse(s: string): Option<int> {
    match ParseYear(s)
    case Stop => None
    case Go(year, afterYear) =>
      match ParseDay(s, afterYear)
      case Stop => None
      case Go((month, date), afterDay) =>
        if afterDay == |s| then TimeClip(MakeMs(Fields(year, month, date, 0, 0, 0, 0)))
        else
          match ParseClock(s, afterDay)
          case Stop => None
          case Go((hours, minutes, seconds, ms), afterClock) =>
            match ParseZone(s, afterClock)
            case Stop => None
            case Go(offset, end) =>
              var local := MakeMs(Fields(year, month, date, hours, minutes, seconds, ms));
              if end != |s| || local.None? then None else TimeClip(Some(local.value - offset))
  }

  /** The same, as the implementation runs it: one cursor, advanced field by field. */
  method ParseText(s: string) returns (r: Option<int>)
    ensures r == Parse(s)
  {
    var year, cursor, ok := ReadYear(s);
    if !ok { return None; }
    var month, date;
    month, date, cursor, ok := ReadDay(s, cursor);
    if !ok { return None; }
    if cursor == |s| {
      return TimeClip(MakeMs(Fields(year, month, date, 0, 0, 0, 0)));
    }
    hide ParseYear, ParseDay, ParseClock, ParseZone, MakeMs;
    var hours, minutes, seconds, ms;
    hours, minutes, seconds, ms, cursor, ok := ReadClock(s, cursor);
    if !ok { return None; }
    var offset;
    offset, cursor, ok := ReadZone(s, cursor);
    if !ok || cursor != |s| { return None; }
    var local := MakeMs(Fields(year, month, date, hours, minutes, seconds, ms));
    return if local.None? then None else TimeClip(Some(local.value - offset));
  }

  method ReadYear(s: string) returns (year: int, cursor: nat, ok: bool)
    ensures ParseYear(s) == if ok then Go(year, cursor) else Stop
  {
    year, cursor := 0, 0;
    var signed := At(s, 0, '+') || At(s, 0, '-');
    if signed { cursor := 1; }
    var digits;
    digits, cursor := TakeDigits(s, cursor, if signed then 6 else 4);
    if digits.None? || (signed && s[0] == '-' && digits.value == 0) { return 0, 0, false; }
    year := if signed && s[0] == '-' then -digits.value else digits.value;
    ok := true;
  }

  method ReadDay(s: string, start: nat) returns (month: int, date: int, cursor: nat, ok: bool)
    ensures ParseDay(s, start) == if ok then Go((month, date), cursor) else Stop
  {
    month, date, cursor, ok := 1, 1, start, true;
    if At(s, cursor, '-') {
      cursor := cursor + 1;
      var digits;
      digits, cursor := TakeDigits(s, cursor, 2);
      if digits.None? { return 1, 1, start, false; }
      month := digits.value;
      if At(s, cursor, '-') {
        cursor := cursor + 1;
        digits, cursor := TakeDigits(s, cursor, 2);
        if digits.None? { return 1, 1, start, false; }
        date := digits.value;
      }
    }
  }

  method ReadClock(s: string, start: nat) returns (hours: int, minutes: int, seconds: int, ms: int, cursor: nat, ok: bool)
    ensures ParseClock(s, start) == if ok then Go((hours, minutes, seconds, ms), cursor) else Stop
  {
    hours, minutes, seconds, ms, cursor, ok := 0, 0, 0, 0, start, false;
    if !At(s, cursor, 'T') { return; }
    var digits;
    digits, cursor := TakeDigits(s, cursor + 1, 2);
    if digits.None? || !At(s, cursor, ':') { return; }
    hours := digits.value;
    digits, cursor := TakeDigits(s, cursor + 1, 2);
    if digits.None? { return; }
    minutes := digits.value;
    if At(s, cursor, ':') {
      digits, cursor := TakeDigits(s, cursor + 1, 2);
      if digits.None? { return; }
      seconds := digits.value;
      if At(s, cursor, '.') {
        digits, cursor := TakeDigits(s, cursor + 1, 3);
        if digits.None? { return; }
        ms := digits.value;
      }
    }
    ok := true;
  }

  method ReadZone(s: string, start: nat) returns (offset: int, cursor: nat, ok: bool)
    ensures ParseZone(s, start) == if ok then Go(offset, cursor) else Stop
  {
    offset, cursor, ok := 0, start, false;
    if At(s, cursor, 'Z') { return 0, cursor + 1, true; }
    if !At(s, cursor, '+') && !At(s, cursor, '-') { return; }
    var negative := s[cursor] == '-';
    var hours, minutes;
    hours, cursor := TakeDigits(s, cursor + 1, 2);
    if hours.None? || !At(s, cursor, ':') { return; }
    minutes, cursor := TakeDigits(s, cursor + 1, 2);
    if minutes.None? || hours.value > 23 || minutes.value > 59 { return; }
    var value := (hours.value * 60 + minutes.value) * 60000;
    offset := if negative then -value else value;
    ok := true;
  }

  // ---- parsing what was printed ----

  lemma {:induction false} DigitsOfPad(n: int, width: nat)
    requires 0 <= n < Pow10(width)
    ensures DigitsOf(Pad(n, width)) == Some(n)
    decreases width
  {
    if width > 0 {
      DigitsOfPad(n / 10, width - 1);
      var s := Pad(n, width);
      assert s[..|s| - 1] == Pad(n / 10, width - 1);
    }
  }

  lemma TakeAt(a: string, n: int, width: nat, b: string)
    requires 0 <= n < Pow10(width)
    ensures Take(a + Pad(n, width) + b, |a|, width) == Some(n)
  {
    DigitsOfPad(n, width);
    assert (a + Pad(n, width) + b)[|a|..|a| + width] == Pad(n, width);
  }

  lemma YearParses(year: int, rest: string)
    requires -999999 <= year <= 999999
    ensures ParseYear(YearText(year) + rest) == Go(year, |YearText(year)|)
  {
    Pow10Values();
    if year < 0 {
      TakeAt("-", -year, 6, rest);
    } else if year > 9999 {
      TakeAt("+", year, 6, rest);
    } else {
      TakeAt("", year, 4, rest);
      assert "" + Pad(year, 4) + rest == YearText(year) + rest;
      FirstIsDigit(year, 4);
    }
  }

  lemma {:induction false} FirstIsDigit(n: int, width: nat)
    requires 0 <= n < Pow10(width) && width > 0
    ensures '0' <= Pad(n, width)[0] <= '9'
    decreases width
  {
    if width > 1 { FirstIsDigit(n / 10, width - 1); }
  }

  /** A separator and a number written at `a` are read back there. */
  lemma FieldAt(s: string, a: string, c: char, n: int, width: nat, b: string)
    requires 0 <= n < Pow10(width) && s == a + [c] + Pad(n, width) + b
    ensures At(s, |a|, c) && Take(s, |a| + 1, width) == Some(n)
  {
    TakeAt(a + [c], n, width, b);
  }

  lemma DayParses(a: string, c: Civil, rest: string)
    requires IsDate(c)
    ensures ParseDay(a + DateText(c) + rest, |a|) == Go((c.month, c.date), |a| + 6)
  {
    Pow10Values();
    var m, d, s := Pad(c.month, 2), Pad(c.date, 2), a + DateText(c) + rest;
    assert s == a + ['-'] + m + (['-'] + d + rest) == (a + ['-'] + m) + ['-'] + d + rest;
    FieldAt(s, a, '-', c.month, 2, ['-'] + d + rest);
    FieldAt(s, a + ['-'] + m, '-', c.date, 2, rest);
  }

  /** The four fields of a time of day put together again. */
  lemma ClockFields(millis: int)
    requires 0 <= millis < DAY
    ensures millis == millis / 3600000 * 3600000 + millis / 60000 % 60 * 60000 + millis / 1000 % 60 * 1000 + millis % 1000
    ensures 0 <= millis / 3600000 < 24
  {
    var seconds := millis / 1000;
    var minutes := seconds / 60;
    assert millis / 60000 == minutes && millis / 3600000 == minutes / 60;
  }

  lemma Regroup(a: string, h: string, m: string, sec: string, ms: string, b: string)
    ensures var s := a + ['T'] + h + [':'] + m + [':'] + sec + ['.'] + ms + b;
            && s == a + ['T'] + h + ([':'] + m + [':'] + sec + ['.'] + ms + b)
            && s == (a + ['T'] + h) + [':'] + m + ([':'] + sec + ['.'] + ms + b)
            && s == (a + ['T'] + h + [':'] + m) + [':'] + sec + (['.'] + ms + b)
  {
  }

  lemma ClockReads(s: string, a: string, h: int, m: int, sec: int, ms: int, b: string)
    requires 0 <= h < Pow10(2) && 0 <= m < Pow10(2) && 0 <= sec < Pow10(2) && 0 <= ms < Pow10(3)
    requires s == a + ['T'] + Pad(h, 2) + [':'] + Pad(m, 2) + [':'] + Pad(sec, 2) + ['.'] + Pad(ms, 3) + b
    ensures ParseClock(s, |a|) == Go((h, m, sec, ms), |a| + 13)
  {
    hide Take, DigitsOf, At, Pad, Pow10;
    var p, q, r, t := Pad(h, 2), Pad(m, 2), Pad(sec, 2), Pad(ms, 3);
    Regroup(a, p, q, r, t, b);
    FieldAt(s, a, 'T', h, 2, [':'] + q + [':'] + r + ['.'] + t + b);
    FieldAt(s, a + ['T'] + p, ':', m, 2, [':'] + r + ['.'] + t + b);
    FieldAt(s, a + ['T'] + p + [':'] + q, ':', sec, 2, ['.'] + t + b);
    FieldAt(s, a + ['T'] + p + [':'] + q + [':'] + r, '.', ms, 3, b);
  }

  lemma ClockParses(a: string, millis: int)
    requires 0 <= millis < DAY
    ensures var s := a + ClockText(millis);
            && ParseClock(s, |a|) == Go((millis / 3600000, millis / 60000 % 60, millis / 1000 % 60, millis % 1000), |a| + 13)
            && |s| == |a| + 14 && At(s, |a| + 13, 'Z')
  {
    Pow10Values();
    hide ParseClock;
    var s := a + ClockText(millis);
    var h, m, sec, ms := millis / 3600000, millis / 60000 % 60, millis / 1000 % 60, millis % 1000;
    assert s == a + ['T'] + Pad(h, 2) + [':'] + Pad(m, 2) + [':'] + Pad(sec, 2) + ['.'] + Pad(ms, 3) + ['Z'];
    ClockReads(s, a, h, m, sec, ms, ['Z']);
  }

  lemma IsoParses(time: int, q: real)
    requires -MAX_TIME <= time <= MAX_TIME && q.Floor == time / DAY
    ensures ToIso(time, q).Some? && Parse(ToIso(time, q).value) == Some(time)
  {
    hide Parse, CivilFromDays, DaysFromCivil, YearText, DateText, ClockText, IsDate;
    var day := time / DAY;
    var millis := time - day * DAY;
    assert 0 <= millis < DAY;
    YearFits(day);
    CivilIsDate(day);
    PartsParse(CivilFromDays(day), millis);
  }

  /** For every time value a Date can hold, and whatever the machine rounds the day quotient to,
      parsing the ISO text gives the time value back. */
  lemma RoundTrip(time: int, q: real)
    requires -MAX_TIME <= time <= MAX_TIME && Nearest(q, time as real / 86400000.0)
    ensures q.Floor == time / DAY
    ensures ToIso(time, q).Some? && Parse(ToIso(time, q).value) == Some(time)
  {
    hide Parse, ToIso, Nearest;
    FlooredQuotientExact(time, q);
    IsoParses(time, q);
  }

  /** The parser on a text whose four parts have been recognised, in UTC. */
  lemma PartsMeet(s: string, y: int, day: (int, int), clock: (int, int, int, int), afterYear: nat, afterDay: nat)
    requires ParseYear(s) == Go(y, afterYear) && ParseDay(s, afterYear) == Go(day, afterDay)
    requires ParseClock(s, afterDay) == Go(clock, |s| - 1) && afterDay < |s| - 1 && At(s, |s| - 1, 'Z')
    ensures var local := MakeMs(Fields(y, day.0, day.1, clock.0, clock.1, clock.2, clock.3));
            Parse(s) == if local.None? then None else TimeClip(local)
  {
    hide ParseYear, ParseDay, ParseClock, MakeMs, Take;
  }

  lemma PartsParse(c: Civil, millis: int)
    requires IsDate(c) && -999999 <= c.year <= 999999 && 0 <= millis < DAY
    ensures Parse(YearText(c.year) + DateText(c) + ClockText(millis)) == TimeClip(Some(DaysFromCivil(c) * DAY + millis))
  {
    var y, d, t := YearText(c.year), DateText(c), ClockText(millis);
    var s := y + d + t;
    assert s == y + (d + t);
    hide Parse, ParseYear, ParseDay, ParseClock, YearText, DateText, ClockText, DaysFromCivil, MakeMs, TimeClip, IsDate;
    YearParses(c.year, d + t);
    DayParses(y, c, t);
    ClockParses(y + d, millis);
    DateTextLength(c);
    PartsMeet(s, c.year, (c.month, c.date),
              (millis / 3600000, millis / 60000 % 60, millis / 1000 % 60, millis % 1000), |y|, |y| + 6);
    FieldsMake(c, millis);
  }

  lemma FieldsMake(c: Civil, millis: int)
    requires IsDate(c) && 0 <= millis < DAY
    ensures MakeMs(Fields(c.year, c.month, c.date, millis / 3600000, millis / 60000 % 60, millis / 1000 % 60, millis % 1000))
            == Some(DaysFromCivil(c) * DAY + millis)
  {
    hide DaysFromCivil;
    ClockFields(millis);
    assert c == Civil(c.year, c.month, c.date);
  }

  lemma DateTextLength(c: Civil)
    requires IsDate(c)
    ensures |DateText(c)| == 6
  {
  }
}
