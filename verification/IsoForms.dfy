/** The texts that the ISO branch of the date parser takes, written as forms of their own, and what
    each of them means: the parser gives exactly these texts these meanings. */
module IsoForms {
  import opened Arithmetic
  import opened Binary64
  import opened Calendar
  import opened IsoDate
  import opened Options
  import opened TimeValue

  // ---- forms ----

  datatype YearForm = Four(n: int) | Plus(n: int) | Minus(n: int)

  datatype DayForm = NoDay | Month(month: int) | MonthDate(month: int, date: int)

  datatype ClockForm =
    | Minutes(hours: int, minutes: int)
    | Seconds(hours: int, minutes: int, seconds: int)
    | Millis(hours: int, minutes: int, seconds: int, ms: int)

  datatype ZoneForm = NoZone | Utc | East(hours: int, minutes: int) | West(hours: int, minutes: int)

  datatype Form = Day(year: YearForm, day: DayForm) | Time(year: YearForm, day: DayForm, clock: ClockForm, zone: ZoneForm)

  predicate Fits(n: int, width: nat) {
    0 <= n < Pow10(width)
  }

  /** A separator and a number of a fixed width. */
  function Part(c: char, n: int, width: nat): (s: string)
    requires Fits(n, width)
    ensures |s| == 1 + width
  {
    [c] + Pad(n, width)
  }

  predicate YearFits(y: YearForm) {
    if y.Four? then Fits(y.n, 4) else Fits(y.n, 6)
  }

  function YearSpelled(y: YearForm): string
    requires YearFits(y)
  {
    match y
    case Four(n) => Pad(n, 4)
    case Plus(n) => Part('+', n, 6)
    case Minus(n) => Part('-', n, 6)
  }

  predicate DayFits(d: DayForm) {
    (!d.NoDay? ==> Fits(d.month, 2)) && (d.MonthDate? ==> Fits(d.date, 2))
  }

  function DaySpelled(d: DayForm): string
    requires DayFits(d)
  {
    match d
    case NoDay => ""
    case Month(m) => Part('-', m, 2)
    case MonthDate(m, date) => Part('-', m, 2) + Part('-', date, 2)
  }

  predicate ClockFits(c: ClockForm) {
    && Fits(c.hours, 2) && Fits(c.minutes, 2)
    && (!c.Minutes? ==> Fits(c.seconds, 2)) && (c.Millis? ==> Fits(c.ms, 3))
  }

  function ClockSpelled(c: ClockForm): string
    requires ClockFits(c)
  {
    Part('T', c.hours, 2) + (Part(':', c.minutes, 2) + SecondsSpelled(c))
  }

  function SecondsSpelled(c: ClockForm): string
    requires ClockFits(c)
  {
    match c
    case Minutes(_, _) => ""
    case Seconds(_, _, seconds) => Part(':', seconds, 2)
    case Millis(_, _, seconds, ms) => Part(':', seconds, 2) + Part('.', ms, 3)
  }

  predicate ZoneFits(z: ZoneForm) {
    z.East? || z.West? ==> Fits(z.hours, 2) && Fits(z.minutes, 2)
  }

  function ZoneSpelled(z: ZoneForm): string
    requires ZoneFits(z)
  {
    match z
    case NoZone => ""
    case Utc => "Z"
    case East(h, m) => Part('+', h, 2) + Part(':', m, 2)
    case West(h, m) => Part('-', h, 2) + Part(':', m, 2)
  }

  predicate FormFits(f: Form) {
    YearFits(f.year) && DayFits(f.day) && (f.Time? ==> ClockFits(f.clock) && ZoneFits(f.zone))
  }

  function Spelled(f: Form): string
    requires FormFits(f)
  {
    YearSpelled(f.year) + (DaySpelled(f.day) + if f.Time? then ClockSpelled(f.clock) + ZoneSpelled(f.zone) else "")
  }

  // ---- meaning ----

  function YearOf(y: YearForm): int {
    if y.Minus? then -y.n else y.n
  }

  function MonthOf(d: DayForm): int {
    if d.NoDay? then 1 else d.month
  }

  function DateOf(d: DayForm): int {
    if d.MonthDate? then d.date else 1
  }

  predicate DayExists(f: Form) {
    f.year != Minus(0) && 1 <= MonthOf(f.day) <= 12 && 1 <= DateOf(f.day) <= 31
  }

  /** The start of the day; a 31st of a shorter month runs into the next. */
  function DayTime(f: Form): int
    requires DayExists(f)
  {
    DaysFromCivil(Civil(YearOf(f.year), MonthOf(f.day), DateOf(f.day))) * 86400000
  }

  function SecondsOf(c: ClockForm): int {
    if c.Minutes? then 0 else c.seconds
  }

  function MillisOf(c: ClockForm): int {
    if c.Millis? then c.ms else 0
  }

  /** Hours go up to 24, which names only midnight. */
  predicate ClockExists(c: ClockForm) {
    && c.hours <= 24 && c.minutes <= 59 && SecondsOf(c) <= 59
    && (c.hours == 24 ==> c.minutes == 0 && SecondsOf(c) == 0 && MillisOf(c) == 0)
  }

  function ClockTime(c: ClockForm): int {
    ((c.hours * 60 + c.minutes) * 60 + SecondsOf(c)) * 1000 + MillisOf(c)
  }

  /** A time of day counts only with its zone. */
  predicate ZoneExists(z: ZoneForm) {
    match z
    case NoZone => false
    case Utc => true
    case East(h, m) => h <= 23 && m <= 59
    case West(h, m) => h <= 23 && m <= 59
  }

  /** What clocks in the zone are ahead of UTC. */
  function Ahead(z: ZoneForm): int {
    match z
    case East(h, m) => h * 3600000 + m * 60000
    case West(h, m) => -(h * 3600000 + m * 60000)
    case _ => 0
  }

  function Meaning(f: Form): Option<int> {
    if !DayExists(f) then None
    else if f.Day? then TimeClip(Some(DayTime(f)))
    else if !ClockExists(f.clock) || !ZoneExists(f.zone) then None
    else TimeClip(Some(DayTime(f) + ClockTime(f.clock) - Ahead(f.zone)))
  }

  // ---- every form parses to its meaning ----

  lemma PartAt(s: string, a: string, c: char, n: int, width: nat, b: string)
    requires Fits(n, width) && s == a + (Part(c, n, width) + b)
    ensures At(s, |a|, c) && Take(s, |a| + 1, width) == Some(n)
    ensures s == (a + Part(c, n, width)) + b
  {
    FieldAt(s, a, c, n, width, b);
  }

  /** What stands behind a decides the branch. */
  lemma NextAt(s: string, a: string, b: string, c: char)
    requires s == a + b
    ensures At(s, |a|, c) <==> b != "" && b[0] == c
  {
  }

  lemma YearParsed(y: YearForm, b: string)
    requires YearFits(y)
    ensures ParseYear(YearSpelled(y) + b) == if y == Minus(0) then Stop else Go(YearOf(y), |YearSpelled(y)|)
  {
    hide Pow10;
    var s := YearSpelled(y) + b;
    match y
    case Four(n) =>
      FourDigits(n, b);
      TakeAt("", n, 4, b);
      assert "" + Pad(n, 4) + b == s;
    case Plus(n) => PartAt(s, "", '+', n, 6, b);
    case Minus(n) => PartAt(s, "", '-', n, 6, b);
  }

  lemma FourDigits(n: int, b: string)
    requires Fits(n, 4)
    ensures !At(Pad(n, 4) + b, 0, '+') && !At(Pad(n, 4) + b, 0, '-')
  {
    FirstIsDigit(n, 4);
  }

  lemma DayParsed(s: string, a: string, d: DayForm, b: string)
    requires DayFits(d) && s == a + (DaySpelled(d) + b) && (b != "" ==> b[0] != '-')
    ensures ParseDay(s, |a|) == Go((MonthOf(d), DateOf(d)), |a| + |DaySpelled(d)|)
  {
    hide Take, At, Pad, Pow10;
    match d
    case NoDay =>
      NextAt(s, a, b, '-');
    case Month(m) =>
      PartAt(s, a, '-', m, 2, b);
      NextAt(s, a + Part('-', m, 2), b, '-');
    case MonthDate(m, date) =>
      assert DaySpelled(d) + b == Part('-', m, 2) + (Part('-', date, 2) + b);
      PartAt(s, a, '-', m, 2, Part('-', date, 2) + b);
      PartAt(s, a + Part('-', m, 2), '-', date, 2, b);
  }

  predicate EndsClock(b: string) {
    b != "" ==> b[0] != ':' && b[0] != '.'
  }

  lemma ClockParsed(s: string, a: string, c: ClockForm, b: string)
    requires ClockFits(c) && s == a + (ClockSpelled(c) + b) && EndsClock(b)
    ensures ParseClock(s, |a|) == Go((c.hours, c.minutes, SecondsOf(c), MillisOf(c)), |a| + |ClockSpelled(c)|)
  {
    hide Take, At, Pad, Pow10;
    var h, m, rest := Part('T', c.hours, 2), Part(':', c.minutes, 2), SecondsSpelled(c);
    assert ClockSpelled(c) + b == h + (m + (rest + b));
    PartAt(s, a, 'T', c.hours, 2, m + (rest + b));
    PartAt(s, a + h, ':', c.minutes, 2, rest + b);
    SecondsParsed(s, a + h + m, c, b);
  }

  lemma SecondsParsed(s: string, a: string, c: ClockForm, b: string)
    requires ClockFits(c) && s == a + (SecondsSpelled(c) + b) && EndsClock(b)
    ensures At(s, |a|, ':') <==> !c.Minutes?
    ensures !c.Minutes? ==> Take(s, |a| + 1, 2) == Some(c.seconds) && (At(s, |a| + 3, '.') <==> c.Millis?)
    ensures c.Millis? ==> Take(s, |a| + 4, 3) == Some(c.ms)
  {
    hide Take, At, Pad, Pow10;
    match c
    case Minutes(_, _) =>
      NextAt(s, a, b, ':');
    case Seconds(_, _, seconds) =>
      PartAt(s, a, ':', seconds, 2, b);
      NextAt(s, a + Part(':', seconds, 2), b, '.');
    case Millis(_, _, seconds, ms) =>
      assert SecondsSpelled(c) + b == Part(':', seconds, 2) + (Part('.', ms, 3) + b);
      PartAt(s, a, ':', seconds, 2, Part('.', ms, 3) + b);
      PartAt(s, a + Part(':', seconds, 2), '.', ms, 3, b);
  }

  lemma ZoneParsed(s: string, a: string, z: ZoneForm)
    requires ZoneFits(z) && s == a + ZoneSpelled(z)
    ensures ParseZone(s, |a|) == if ZoneExists(z) then Go(Ahead(z), |s|) else Stop
  {
    hide Take, Pad, Pow10;
    match z
    case NoZone =>
    case Utc =>
    case East(h, m) => SignedZone(s, a, '+', h, m);
    case West(h, m) => SignedZone(s, a, '-', h, m);
  }

  lemma SignedZone(s: string, a: string, c: char, h: int, m: int)
    requires Fits(h, 2) && Fits(m, 2) && s == a + (Part(c, h, 2) + Part(':', m, 2))
    ensures |s| == |a| + 6 && At(s, |a|, c) && At(s, |a| + 3, ':')
    ensures Take(s, |a| + 1, 2) == Some(h) && Take(s, |a| + 4, 2) == Some(m)
  {
    hide Take, Pad, Pow10;
    PartAt(s, a, c, h, 2, Part(':', m, 2));
    assert Part(':', m, 2) + "" == Part(':', m, 2);
    PartAt(s, a + Part(c, h, 2), ':', m, 2, "");
  }

  lemma TailsBegin(c: ClockForm, z: ZoneForm)
    requires ClockFits(c) && ZoneFits(z)
    ensures ClockSpelled(c) != "" && ClockSpelled(c)[0] == 'T' && EndsClock(ZoneSpelled(z))
  {
    hide Pad, Pow10;
  }

  lemma MeaningOfFields(f: Form)
    requires FormFits(f) && f.year != Minus(0)
    ensures f.Day? ==> Meaning(f) == TimeClip(MakeMs(Fields(YearOf(f.year), MonthOf(f.day), DateOf(f.day), 0, 0, 0, 0)))
    ensures f.Time? ==>
              var local := MakeMs(Fields(YearOf(f.year), MonthOf(f.day), DateOf(f.day),
                                         f.clock.hours, f.clock.minutes, SecondsOf(f.clock), MillisOf(f.clock)));
              Meaning(f) == if !ZoneExists(f.zone) || local.None? then None else TimeClip(Some(local.value - Ahead(f.zone)))
  {
    hide DaysFromCivil, Pow10;
  }

  /** Each of these texts parses to its meaning: days start in UTC, a time of day needs its zone, and
      UTC is what the clock shows less what the zone is ahead. */
  lemma FormsParse(f: Form)
    requires FormFits(f)
    ensures Parse(Spelled(f)) == Meaning(f)
  {
    hide ParseYear, ParseDay, ParseClock, ParseZone, YearFits, DayFits, ClockFits, ZoneFits, YearSpelled, DaySpelled,
         ClockSpelled, ZoneSpelled, MakeMs, Meaning, EndsClock;
    var s, y, d := Spelled(f), YearSpelled(f.year), DaySpelled(f.day);
    if f.Day? {
      YearParsed(f.year, d + "");
      DayParsed(s, y, f.day, "");
    } else {
      var c, z := ClockSpelled(f.clock), ZoneSpelled(f.zone);
      TailsBegin(f.clock, f.zone);
      YearParsed(f.year, d + (c + z));
      DayParsed(s, y, f.day, c + z);
      assert s == (y + d) + (c + z) == (y + d + c) + z;
      ClockParsed(s, y + d, f.clock, z);
      ZoneParsed(s, y + d + c, f.zone);
    }
    if f.year == Minus(0) { MinusZero(f); } else { MeaningOfFields(f); }
  }

  lemma MinusZero(f: Form)
    requires f.year == Minus(0)
    ensures Meaning(f) == None
  {
  }

  // ---- nothing else parses ----

  lemma {:induction false} PadOfDigits(t: string)
    ensures DigitsOf(t).Some? ==> Fits(DigitsOf(t).value, |t|) && Pad(DigitsOf(t).value, |t|) == t
    decreases |t|
  {
    if t != "" {
      PadOfDigits(t[..|t| - 1]);
      assert t == t[..|t| - 1] + [t[|t| - 1]];
    }
  }

  lemma PartOf(s: string, cursor: nat, c: char, width: nat)
    requires At(s, cursor, c) && Take(s, cursor + 1, width).Some?
    ensures var n := Take(s, cursor + 1, width).value;
            Fits(n, width) && cursor + 1 + width <= |s| && s[cursor..cursor + 1 + width] == Part(c, n, width)
  {
    var digits := s[cursor + 1..cursor + 1 + width];
    PadOfDigits(digits);
    assert s[cursor..cursor + 1 + width] == [c] + digits;
  }

  lemma Joins(s: string, a: nat, b: nat, c: nat)
    requires a <= b <= c <= |s|
    ensures s[a..b] + s[b..c] == s[a..c]
  {
  }

  lemma YearOfText(s: string) returns (y: YearForm)
    requires ParseYear(s).Go?
    ensures YearFits(y) && y != Minus(0) && ParseYear(s).next <= |s| && s[..ParseYear(s).next] == YearSpelled(y)
  {
    hide Pow10;
    var year := ParseYear(s).value;
    if At(s, 0, '+') {
      PartOf(s, 0, '+', 6);
      y := Plus(year);
    } else if At(s, 0, '-') {
      PartOf(s, 0, '-', 6);
      y := Minus(-year);
    } else {
      PadOfDigits(s[..4]);
      y := Four(year);
    }
  }

  lemma DayOfText(s: string, cursor: nat) returns (d: DayForm)
    requires cursor <= |s| && ParseDay(s, cursor).Go?
    ensures DayFits(d) && cursor <= ParseDay(s, cursor).next <= |s| && s[cursor..ParseDay(s, cursor).next] == DaySpelled(d)
  {
    hide Take, Pad, Pow10, Fits, Part;
    if !At(s, cursor, '-') {
      d := NoDay;
    } else {
      PartOf(s, cursor, '-', 2);
      d := Month(Take(s, cursor + 1, 2).value);
      if At(s, cursor + 3, '-') {
        PartOf(s, cursor + 3, '-', 2);
        Joins(s, cursor, cursor + 3, cursor + 6);
        d := MonthDate(d.month, Take(s, cursor + 4, 2).value);
      }
    }
  }

  lemma ClockOfText(s: string, cursor: nat) returns (c: ClockForm)
    requires ParseClock(s, cursor).Go?
    ensures ClockFits(c) && cursor <= ParseClock(s, cursor).next <= |s|
            && s[cursor..ParseClock(s, cursor).next] == ClockSpelled(c)
  {
    hide Take, Pad, Pow10, Fits, Part;
    PartOf(s, cursor, 'T', 2);
    PartOf(s, cursor + 3, ':', 2);
    var h, m := Take(s, cursor + 1, 2).value, Take(s, cursor + 4, 2).value;
    Joins(s, cursor, cursor + 3, cursor + 6);
    if !At(s, cursor + 6, ':') {
      c := Minutes(h, m);
      assert ClockSpelled(c) == Part('T', h, 2) + Part(':', m, 2);
    } else {
      PartOf(s, cursor + 6, ':', 2);
      var seconds := Take(s, cursor + 7, 2).value;
      if !At(s, cursor + 9, '.') {
        c := Seconds(h, m, seconds);
        Joins(s, cursor, cursor + 6, cursor + 9);
        assert ClockSpelled(c) == (Part('T', h, 2) + Part(':', m, 2)) + Part(':', seconds, 2);
      } else {
        PartOf(s, cursor + 9, '.', 3);
        var ms := Take(s, cursor + 10, 3).value;
        c := Millis(h, m, seconds, ms);
        Joins(s, cursor, cursor + 6, cursor + 9);
        Joins(s, cursor, cursor + 9, cursor + 13);
        assert ClockSpelled(c) == ((Part('T', h, 2) + Part(':', m, 2)) + Part(':', seconds, 2)) + Part('.', ms, 3);
      }
    }
  }

  lemma ZoneOfText(s: string, cursor: nat) returns (z: ZoneForm)
    requires ParseZone(s, cursor).Go?
    ensures ZoneFits(z) && cursor <= ParseZone(s, cursor).next <= |s| && s[cursor..ParseZone(s, cursor).next] == ZoneSpelled(z)
  {
    hide Take, Pad, Pow10, Fits, Part;
    if At(s, cursor, 'Z') {
      z := Utc;
    } else {
      var h, m := Take(s, cursor + 1, 2).value, Take(s, cursor + 4, 2).value;
      PartOf(s, cursor, s[cursor], 2);
      PartOf(s, cursor + 3, ':', 2);
      Joins(s, cursor, cursor + 3, cursor + 6);
      z := if s[cursor] == '+' then East(h, m) else West(h, m);
    }
  }

  /** Every text that parses is one of these forms, and then has the meaning of that form. */
  lemma OnlyFormsParse(s: string) returns (f: Form)
    requires Parse(s).Some?
    ensures FormFits(f) && Spelled(f) == s && Parse(s) == Meaning(f)
  {
    hide ParseYear, ParseDay, ParseClock, ParseZone, YearFits, DayFits, ClockFits, ZoneFits, YearSpelled, DaySpelled,
         ClockSpelled, ZoneSpelled, MakeMs, Meaning;
    var y := YearOfText(s);
    var n := ParseYear(s).next;
    var d := DayOfText(s, n);
    var k := ParseDay(s, n).next;
    Joins(s, 0, n, k);
    if k == |s| {
      f := Day(y, d);
      assert s[n..k] + "" == s[n..k];
    } else {
      var c := ClockOfText(s, k);
      var e := ParseClock(s, k).next;
      var z := ZoneOfText(s, e);
      f := Time(y, d, c, z);
      Joins(s, k, e, |s|);
      Joins(s, n, k, |s|);
      Joins(s, 0, n, |s|);
    }
    FormsParse(f);
  }

  // ---- what is printed ----

  /** The i-th character is the decimal digit of that weight. */
  lemma {:induction false} PadDigit(n: int, width: nat, i: nat)
    requires Fits(n, width) && i < width
    ensures Pad(n, width)[i] as int == '0' as int + n / Pow10(width - 1 - i) % 10
    decreases width
  {
    if i == width - 1 {
      assert n / 1 == n;
    } else {
      PadDigit(n / 10, width - 1, i);
      DivideTwice(n, 10, Pow10(width - 2 - i));
    }
  }

  function PrintedYear(year: int): YearForm {
    if year < 0 then Minus(-year) else if year > 9999 then Plus(year) else Four(year)
  }

  /** The text of a time value is a full form in UTC: four digits for the years 0 to 9999, otherwise a
      sign and six, and the clock down to milliseconds. Its meaning is the time value. */
  lemma PrintsForm(time: int, q: real) returns (f: Form)
    requires -MAX_TIME <= time <= MAX_TIME && Nearest(q, time as real / 86400000.0)
    ensures q.Floor == time / DAY
    ensures FormFits(f) && ToIso(time, q) == Some(Spelled(f)) && Meaning(f) == Some(time)
    ensures f.Time? && f.zone == Utc && f.day.MonthDate? && f.clock.Millis?
    ensures f.year == PrintedYear(YearOf(f.year)) && ClockTime(f.clock) == time % 86400000 && f.clock.hours < 24
  {
    hide Nearest, CivilFromDays, DaysFromCivil, Parse, Meaning, IsDate;
    FlooredQuotientExact(time, q);
    var day := time / DAY;
    var millis := time - day * DAY;
    var c := CivilFromDays(day);
    IsoDate.YearFits(day);
    CivilIsDate(day);
    f := PartsForm(c, millis);
    RoundTrip(time, q);
    FormsParse(f);
  }

  lemma PartsForm(c: Civil, millis: int) returns (f: Form)
    requires IsDate(c) && -999999 <= c.year <= 999999 && 0 <= millis < DAY
    ensures FormFits(f) && YearText(c.year) + DateText(c) + ClockText(millis) == Spelled(f)
    ensures f.Time? && f.zone == Utc && f.day.MonthDate? && f.clock.Millis?
    ensures f.year == PrintedYear(YearOf(f.year)) && ClockTime(f.clock) == millis && f.clock.hours < 24
  {
    hide YearText, DateText, ClockText, YearSpelled, DaySpelled, ClockSpelled, YearFits, DayFits, ClockFits, ClockTime,
         PrintedYear, IsDate;
    f := Time(PrintedYear(c.year), MonthDate(c.month, c.date), PrintedClock(millis), Utc);
    PrintsYear(c.year);
    PrintsDate(c);
    PrintsClock(millis);
    Assemble(YearText(c.year), DateText(c), ClockSpelled(f.clock), "Z");
  }

  lemma PrintsYear(year: int)
    requires -999999 <= year <= 999999
    ensures YearFits(PrintedYear(year)) && YearText(year) == YearSpelled(PrintedYear(year))
    ensures YearOf(PrintedYear(year)) == year
  {
    hide Pad;
    Pow10Values();
  }

  lemma PrintsDate(c: Civil)
    requires IsDate(c)
    ensures DayFits(MonthDate(c.month, c.date)) && DateText(c) == DaySpelled(MonthDate(c.month, c.date))
  {
    hide Pad;
    Pow10Values();
  }

  function PrintedClock(millis: int): ClockForm {
    Millis(millis / 3600000, millis / 60000 % 60, millis / 1000 % 60, millis % 1000)
  }

  lemma PrintsClock(millis: int)
    requires 0 <= millis < DAY
    ensures var c := PrintedClock(millis);
            ClockFits(c) && ClockText(millis) == ClockSpelled(c) + "Z" && ClockTime(c) == millis && c.hours < 24
  {
    hide Pad;
    Pow10Values();
    ClockFields(millis);
  }

  lemma Assemble(a: string, b: string, c: string, d: string)
    ensures a + b + (c + d) == a + (b + (c + d))
  {
  }
}
