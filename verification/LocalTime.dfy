/** Construction of a Date from local civil time: the offset that applies depends on the instant
    being looked for, so three offsets are probed and the candidates they give are checked. */
module LocalTime {
  import opened Calendar
  import opened Numbers
  import opened Options
  import opened TimeValue

  const WINDOW := 172800000

  // ---- components ----

  /** The seven arguments; months count from zero, and no component need be in its usual range. */
  datatype Components = Components(year: Number, month: Number, date: Number,
                                   hours: Number, minutes: Number, seconds: Number, ms: Number)

  function Whole(year: int, month: int, date: int, hours: int, minutes: int, seconds: int, ms: int): Components {
    Components(Finite(year as real), Finite(month as real), Finite(date as real),
               Finite(hours as real), Finite(minutes as real), Finite(seconds as real), Finite(ms as real))
  }

  /** Two digits mean the twentieth century. */
  function FullYear(year: int): int {
    if 0 <= year <= 99 then year + 1900 else year
  }

  function LocalMs(year: int, month: int, date: int, hours: int, minutes: int, seconds: int, ms: int): Option<int> {
    if !(-1000000 <= year <= 1000000 && -10000000 <= month <= 10000000) then None
    else
      var cycles := month / 12;
      var days := DaysFromCivil(Civil(FullYear(year) + cycles, month - cycles * 12 + 1, 1)) + (date - 1);
      Some(days * 86400000 + hours * 3600000 + minutes * 60000 + seconds * 1000 + ms)
  }

  function ComponentsMs(c: Components): Option<int> {
    if !(c.year.Finite? && c.month.Finite? && c.date.Finite?
         && c.hours.Finite? && c.minutes.Finite? && c.seconds.Finite? && c.ms.Finite?)
    then None
    else LocalMs(Trunc(c.year.r), Trunc(c.month.r), Trunc(c.date.r),
                 Trunc(c.hours.r), Trunc(c.minutes.r), Trunc(c.seconds.r), Trunc(c.ms.r))
  }

  lemma TruncWhole(n: int)
    ensures Trunc(n as real) == n
  {
  }

  lemma WholeMs(year: int, month: int, date: int, hours: int, minutes: int, seconds: int, ms: int)
    ensures ComponentsMs(Whole(year, month, date, hours, minutes, seconds, ms))
            == LocalMs(year, month, date, hours, minutes, seconds, ms)
  {
    hide LocalMs, Trunc;
    TruncWhole(year);
    TruncWhole(month);
    TruncWhole(date);
    TruncWhole(hours);
    TruncWhole(minutes);
    TruncWhole(seconds);
    TruncWhole(ms);
  }

  /** A year of at most two digits is one of the twentieth century. */
  lemma TwoDigitYears(year: int, month: int, date: int, hours: int, minutes: int, seconds: int, ms: int)
    requires 0 <= year <= 99
    ensures ComponentsMs(Whole(year, month, date, hours, minutes, seconds, ms))
            == ComponentsMs(Whole(1900 + year, month, date, hours, minutes, seconds, ms))
  {
    hide DaysFromCivil, ComponentsMs, Trunc;
    WholeMs(year, month, date, hours, minutes, seconds, ms);
    WholeMs(1900 + year, month, date, hours, minutes, seconds, ms);
  }

  predicate AllFinite(c: Components) {
    c.year.Finite? && c.month.Finite? && c.date.Finite? && c.hours.Finite? && c.minutes.Finite? && c.seconds.Finite? && c.ms.Finite?
  }

  /** Exactly what is no number, or more than a million years or ten million months away, is refused;
      fractions of components are cut off. */
  lemma ComponentsRefused(c: Components)
    ensures ComponentsMs(c).None? <==>
              !AllFinite(c) || !(-1000001.0 < c.year.r < 1000001.0) || !(-10000001.0 < c.month.r < 10000001.0)
    ensures AllFinite(c) ==>
              ComponentsMs(c) == ComponentsMs(Whole(Trunc(c.year.r), Trunc(c.month.r), Trunc(c.date.r), Trunc(c.hours.r),
                                                    Trunc(c.minutes.r), Trunc(c.seconds.r), Trunc(c.ms.r)))
  {
    hide DaysFromCivil;
    if AllFinite(c) {
      WholeMs(Trunc(c.year.r), Trunc(c.month.r), Trunc(c.date.r), Trunc(c.hours.r), Trunc(c.minutes.r),
              Trunc(c.seconds.r), Trunc(c.ms.r));
    }
  }

  /** A date that exists and a time of day stand for their day number and the time into that day. */
  lemma CivilComponents(year: int, month: int, date: int, hours: int, minutes: int, seconds: int, ms: int)
    requires -1000000 <= year <= 1000000
    requires IsDate(Civil(if 0 <= year <= 99 then 1900 + year else year, month, date))
    ensures var c := Civil(if 0 <= year <= 99 then 1900 + year else year, month, date);
            ComponentsMs(Whole(year, month - 1, date, hours, minutes, seconds, ms))
            == Some(DaysFromCivil(c) * 86400000 + hours * 3600000 + minutes * 60000 + seconds * 1000 + ms)
  {
    hide DaysFromCivil, IsLeap, DaysInMonth, ComponentsMs, Trunc;
    WholeMs(year, month - 1, date, hours, minutes, seconds, ms);
    FirstOfMonth(FullYear(year), month, date);
    assert (month - 1) / 12 == 0;
  }

  lemma FirstOfMonth(year: int, month: int, date: int)
    ensures DaysFromCivil(Civil(year, month, date)) == DaysFromCivil(Civil(year, month, 1)) + date - 1
  {
  }

  /** Months outside the year carry into other years, backwards as well as forwards. */
  lemma MonthsCarry(year: int, month: int, cycles: int, date: int, hours: int, minutes: int, seconds: int, ms: int)
    requires -1000000 <= year <= 1000000
    requires var named := if 0 <= year <= 99 then 1900 + year else year;
             -1000000 <= named + cycles <= 1000000 && !(0 <= named + cycles <= 99)
    requires -10000000 <= month <= 10000000 && -10000000 <= month + 12 * cycles <= 10000000
    ensures var named := if 0 <= year <= 99 then 1900 + year else year;
            ComponentsMs(Whole(year, month + 12 * cycles, date, hours, minutes, seconds, ms))
            == ComponentsMs(Whole(named + cycles, month, date, hours, minutes, seconds, ms))
  {
    hide DaysFromCivil, ComponentsMs, Trunc;
    WholeMs(year, month + 12 * cycles, date, hours, minutes, seconds, ms);
    WholeMs(FullYear(year) + cycles, month, date, hours, minutes, seconds, ms);
    assert (month + 12 * cycles) / 12 == month / 12 + cycles;
  }

  /** Hours and milliseconds outside the day carry into other days. */
  lemma TimesCarry(year: int, month: int, date: int, hours: int, minutes: int, seconds: int, ms: int, days: int)
    ensures ComponentsMs(Whole(year, month, date, hours + 24 * days, minutes, seconds, ms))
            == ComponentsMs(Whole(year, month, date + days, hours, minutes, seconds, ms))
    ensures ComponentsMs(Whole(year, month, date, hours, minutes, seconds, ms + 86400000 * days))
            == ComponentsMs(Whole(year, month, date + days, hours, minutes, seconds, ms))
  {
    hide DaysFromCivil, ComponentsMs, Trunc;
    WholeMs(year, month, date, hours + 24 * days, minutes, seconds, ms);
    WholeMs(year, month, date, hours, minutes, seconds, ms + 86400000 * days);
    WholeMs(year, month, date + days, hours, minutes, seconds, ms);
  }

  // ---- probing ----

  /** The offset from UTC, in seconds, at a second of UTC; None where the platform has no answer. */
  type Zone = int -> Option<int>

  /** What the probes have found: the earliest exact match, and for a skipped time the candidate with
      the smallest forward displacement. */
  datatype Found = Found(earliest: Option<int>, gap: Option<int>, afterGap: Option<int>)

  function Least(a: Option<int>, b: int): Option<int> {
    if a.Some? && a.value <= b then a else Some(b)
  }

  /** A candidate with the displacement between its own offset and the one that produced it. */
  function Note(found: Found, candidate: int, displacement: int): Found {
    if displacement == 0 then found.(earliest := Least(found.earliest, candidate))
    else if displacement > 0 && (found.gap.None? || displacement < found.gap.value)
    then found.(gap := Some(displacement), afterGap := Some(candidate))
    else found
  }

  function Probe(zone: Zone, local: int, delta: int, found: Found): Found {
    match zone((local + delta) / 1000)
    case None => found
    case Some(offset) =>
      var candidate := local - offset * 1000;
      match zone(candidate / 1000)
      case None => found
      case Some(actual) => Note(found, candidate, (actual - offset) * 1000)
  }

  function Probes(zone: Zone, local: int, deltas: seq<int>): Found {
    if deltas == [] then Found(None, None, None)
    else Probe(zone, local, deltas[|deltas| - 1], Probes(zone, local, deltas[..|deltas| - 1]))
  }

  lemma ProbesStep(zone: Zone, local: int, deltas: seq<int>, i: nat)
    requires i < |deltas|
    ensures Probes(zone, local, deltas[..0]) == Found(None, None, None)
    ensures Probes(zone, local, deltas[..i + 1]) == Probe(zone, local, deltas[i], Probes(zone, local, deltas[..i]))
  {
    assert deltas[..i + 1][..i] == deltas[..i];
  }

  /** The loop over the three probes. */
  method NewComponents(zone: Zone, c: Components) returns (r: Option<int>)
    ensures r == Resolve(zone, ComponentsMs(c))
  {
    hide ComponentsMs, Probes;
    var local := ComponentsMs(c);
    if local.None? || !(-MAX_TIME - WINDOW <= local.value <= MAX_TIME + WINDOW) {
      return None;
    }
    var earliest, gap, afterGap: Option<int> := None, None, None;
    var deltas := [-WINDOW, 0, WINDOW];
    ProbesStep(zone, local.value, deltas, 0);
    for i := 0 to |deltas|
      invariant Found(earliest, gap, afterGap) == Probes(zone, local.value, deltas[..i])
    {
      ProbesStep(zone, local.value, deltas, i);
      var offset := zone((local.value + deltas[i]) / 1000);
      if offset.None? { continue; }
      var candidate := local.value - offset.value * 1000;
      var actual := zone(candidate / 1000);
      if actual.None? { continue; }
      var displacement := (actual.value - offset.value) * 1000;
      if displacement == 0 {
        earliest := Least(earliest, candidate);
      } else if displacement > 0 && (gap.None? || displacement < gap.value) {
        gap, afterGap := Some(displacement), Some(candidate);
      }
    }
    assert deltas[..|deltas|] == [-WINDOW, 0, WINDOW];
    return TimeClip(if earliest.Some? then earliest else afterGap);
  }

  function Resolve(zone: Zone, local: Option<int>): Option<int> {
    if local.None? || !(-MAX_TIME - WINDOW <= local.value <= MAX_TIME + WINDOW) then None
    else
      var found := Probes(zone, local.value, [-WINDOW, 0, WINDOW]);
      TimeClip(if found.earliest.Some? then found.earliest else found.afterGap)
  }

  // ---- what is chosen, in any zone ----

  /** The instant a probe tries, and by how much it falls short of the civil time asked for. */
  function Tried(zone: Zone, local: int, delta: int): Option<(int, int)> {
    var offset := zone((local + delta) / 1000);
    if offset.None? then None
    else
      var candidate := local - offset.value * 1000;
      var actual := zone(candidate / 1000);
      if actual.None? then None else Some((candidate, (actual.value - offset.value) * 1000))
  }

  predicate Exact(zone: Zone, local: int, delta: int, instant: int) {
    Tried(zone, local, delta) == Some((instant, 0))
  }

  predicate Forward(zone: Zone, local: int, delta: int, instant: int, gap: int) {
    Tried(zone, local, delta) == Some((instant, gap)) && gap > 0
  }

  /** The earliest exact instant if there is one, and the instant behind the smallest gap. */
  ghost predicate Chosen(zone: Zone, local: int, deltas: seq<int>, found: Found) {
    && (forall i, c :: 0 <= i < |deltas| && Exact(zone, local, deltas[i], c) ==> found.earliest.Some? && found.earliest.value <= c)
    && (found.earliest.Some? ==> exists i :: 0 <= i < |deltas| && Exact(zone, local, deltas[i], found.earliest.value))
    && (found.gap.Some? <==> found.afterGap.Some?)
    && (forall i, c, g :: 0 <= i < |deltas| && Forward(zone, local, deltas[i], c, g) ==> found.gap.Some? && found.gap.value <= g)
    && (found.gap.Some? ==>
          exists i :: 0 <= i < |deltas| && Forward(zone, local, deltas[i], found.afterGap.value, found.gap.value))
  }

  lemma {:induction false} ProbesChoose(zone: Zone, local: int, deltas: seq<int>)
    ensures Chosen(zone, local, deltas, Probes(zone, local, deltas))
    decreases |deltas|
  {
    if deltas != [] {
      var n := |deltas| - 1;
      ProbesChoose(zone, local, deltas[..n]);
      ProbeChooses(zone, local, deltas[..n], deltas[n], Probes(zone, local, deltas[..n]));
      assert deltas[..n] + [deltas[n]] == deltas;
    }
  }

  lemma ProbeChooses(zone: Zone, local: int, deltas: seq<int>, delta: int, found: Found)
    requires Chosen(zone, local, deltas, found)
    ensures Chosen(zone, local, deltas + [delta], Probe(zone, local, delta, found))
  {
    var more, next := deltas + [delta], Probe(zone, local, delta, found);
    ProbeTries(zone, local, delta, found);
    hide Probe, Tried;
    assert more[|deltas|] == delta;
    assert forall i :: 0 <= i < |deltas| ==> more[i] == deltas[i];
  }

  lemma ProbeTries(zone: Zone, local: int, delta: int, found: Found)
    ensures var tried := Tried(zone, local, delta);
            Probe(zone, local, delta, found)
            == if tried.None? then found else Note(found, tried.value.0, tried.value.1)
  {
  }

  /** In every zone: if one of the three probes finds an instant with the civil time, the earliest of
      these is taken; otherwise the one behind the smallest gap, if any probe lands behind a gap. */
  lemma ResolveChooses(zone: Zone, local: int)
    requires -MAX_TIME - WINDOW <= local <= MAX_TIME + WINDOW
    ensures exists found :: Chosen(zone, local, [-WINDOW, 0, WINDOW], found)
              && Resolve(zone, Some(local)) == TimeClip(if found.earliest.Some? then found.earliest else found.afterGap)
  {
    hide Chosen, Probes;
    ProbesChoose(zone, local, [-WINDOW, 0, WINDOW]);
  }

  // ---- zones with at most one change near the time ----

  /** Offsets exist and stay under two days. */
  ghost predicate Bounded(zone: Zone) {
    forall s :: zone(s).Some? && -172800 < zone(s).value < 172800
  }

  /** Between the outer probes the offset is `before` until second `change` and `after` from it on. */
  ghost predicate StepsOnce(zone: Zone, local: int, change: int, before: int, after: int) {
    forall s :: (local - WINDOW) / 1000 <= s <= (local + WINDOW) / 1000 ==>
      zone(s) == Some(if s < change then before else after)
  }

  /** The instant reads as this civil time on a local clock. */
  predicate Reads(zone: Zone, instant: int, local: int) {
    zone(instant / 1000).Some? && instant + zone(instant / 1000).value * 1000 == local
  }

  lemma ThreeProbes(zone: Zone, local: int)
    ensures Probes(zone, local, [-WINDOW, 0, WINDOW]) ==
              Probe(zone, local, WINDOW, Probe(zone, local, 0, Probe(zone, local, -WINDOW, Found(None, None, None))))
  {
    var d := [-WINDOW, 0, WINDOW];
    assert d[..2] == [-WINDOW, 0] && [-WINDOW, 0][..1] == [-WINDOW] && [-WINDOW][..0] == [];
    assert Probes(zone, local, [-WINDOW]) == Probe(zone, local, -WINDOW, Found(None, None, None));
    assert Probes(zone, local, [-WINDOW, 0]) == Probe(zone, local, 0, Probes(zone, local, [-WINDOW]));
  }

  /** Only two instants can read as the given time, one per offset, and both are inside the window. */
  lemma OnlyCandidates(zone: Zone, local: int, change: int, before: int, after: int, instant: int)
    requires Bounded(zone) && StepsOnce(zone, local, change, before, after) && Reads(zone, instant, local)
    ensures if instant / 1000 < change then instant == local - before * 1000 else instant == local - after * 1000
  {
    assert (local - WINDOW) / 1000 <= instant / 1000 <= (local + WINDOW) / 1000;
  }

  /** The outer probes see the two offsets, and their candidates stay inside the window. */
  lemma CandidateReads(zone: Zone, local: int, change: int, before: int, after: int, offset: int)
    requires StepsOnce(zone, local, change, before, after) && -172800 < offset < 172800
    ensures zone((local - offset * 1000) / 1000) == Some(if (local - offset * 1000) / 1000 < change then before else after)
  {
    assert (local - WINDOW) / 1000 <= (local - offset * 1000) / 1000 <= (local + WINDOW) / 1000;
  }

  /** What a probe notes near a single change: its offset is one of the two, and so is the offset at
      its candidate. */
  lemma ProbeNotes(zone: Zone, local: int, change: int, before: int, after: int, delta: int, found: Found)
    requires Bounded(zone) && StepsOnce(zone, local, change, before, after) && -WINDOW <= delta <= WINDOW
    ensures var offset := if (local + delta) / 1000 < change then before else after;
            var candidate := local - offset * 1000;
            var actual := if candidate / 1000 < change then before else after;
            Probe(zone, local, delta, found) == Note(found, candidate, (actual - offset) * 1000) && -172800 < offset < 172800
  {
    var second := (local + delta) / 1000;
    assert (local - WINDOW) / 1000 <= second <= (local + WINDOW) / 1000;
    assert zone(second).Some?;
    CandidateReads(zone, local, change, before, after, zone(second).value);
  }

  /** The candidate of the offset before the change is on its own side of the change, and that side
      reaches into the window. */
  predicate EarlyHolds(local: int, change: int, before: int) {
    (local - before * 1000) / 1000 < change && (local - WINDOW) / 1000 < change
  }

  predicate LateHolds(local: int, change: int, after: int) {
    (local - after * 1000) / 1000 >= change && (local + WINDOW) / 1000 >= change
  }

  /** The whole computation near a single change, as a function of the two offsets. */
  lemma ResolveNear(zone: Zone, local: int, change: int, before: int, after: int)
    requires Bounded(zone) && StepsOnce(zone, local, change, before, after)
    requires -MAX_TIME - WINDOW <= local <= MAX_TIME + WINDOW
    ensures var early, late := local - before * 1000, local - after * 1000;
            var earlyHolds, lateHolds := EarlyHolds(local, change, before), LateHolds(local, change, after);
            Resolve(zone, Some(local)) == TimeClip(Some(
              if earlyHolds && lateHolds then (if early <= late then early else late)
              else if lateHolds then late else early))
            && (!earlyHolds && !lateHolds ==> before < after)
  {
    hide Probe, Probes, StepsOnce, Bounded;
    ThreeProbes(zone, local);
    var start := Found(None, None, None);
    ProbeNotes(zone, local, change, before, after, -WINDOW, start);
    ProbeNotes(zone, local, change, before, after, 0, Probe(zone, local, -WINDOW, start));
    ProbeNotes(zone, local, change, before, after, WINDOW, Probe(zone, local, 0, Probe(zone, local, -WINDOW, start)));
  }

  lemma SameSecond(zone: Zone, local: int, change: int, before: int, after: int)
    requires Bounded(zone) && StepsOnce(zone, local, change, before, after) && LateHolds(local, change, after)
    ensures Reads(zone, local - after * 1000, local)
  {
    assert zone((local + WINDOW) / 1000) == Some(after);
    CandidateReads(zone, local, change, before, after, after);
  }

  /** The instants that read as the given time are exactly the candidates that hold. */
  lemma ReadsExactly(zone: Zone, local: int, change: int, before: int, after: int, instant: int)
    requires Bounded(zone) && StepsOnce(zone, local, change, before, after)
    ensures Reads(zone, instant, local) <==>
              (EarlyHolds(local, change, before) && instant == local - before * 1000)
              || (LateHolds(local, change, after) && instant == local - after * 1000)
  {
    if Reads(zone, instant, local) {
      OnlyCandidates(zone, local, change, before, after, instant);
      assert (local - WINDOW) / 1000 <= instant / 1000 <= (local + WINDOW) / 1000;
    } else if EarlyHolds(local, change, before) && instant == local - before * 1000 {
      assert zone((local - WINDOW) / 1000) == Some(before);
      CandidateReads(zone, local, change, before, after, before);
    } else if LateHolds(local, change, after) {
      SameSecond(zone, local, change, before, after);
    }
  }

  /** The least instant that reads as the given time. */
  ghost predicate IsEarliest(zone: Zone, instant: int, local: int) {
    Reads(zone, instant, local) && forall other :: Reads(zone, other, local) ==> instant <= other
  }

  /** For a civil time that some instant reads as, the result is the earliest such instant; for one
      that none reads as, it is the instant that the offset before the change gives. */
  lemma ResolveIsRight(zone: Zone, local: int, change: int, before: int, after: int)
    requires Bounded(zone) && StepsOnce(zone, local, change, before, after)
    requires -MAX_TIME - WINDOW <= local <= MAX_TIME + WINDOW
    ensures if exists instant :: Reads(zone, instant, local)
            then exists earliest :: IsEarliest(zone, earliest, local) && Resolve(zone, Some(local)) == TimeClip(Some(earliest))
            else Resolve(zone, Some(local)) == TimeClip(Some(local - before * 1000)) && before < after
  {
    ResolveNear(zone, local, change, before, after);
    forall instant
      ensures Reads(zone, instant, local) <==>
                (EarlyHolds(local, change, before) && instant == local - before * 1000)
                || (LateHolds(local, change, after) && instant == local - after * 1000)
    {
      ReadsExactly(zone, local, change, before, after, instant);
    }
    hide Resolve, Bounded, StepsOnce, Reads, EarlyHolds, LateHolds, TimeClip;
    var early, late := local - before * 1000, local - after * 1000;
    var earliest := if EarlyHolds(local, change, before) && LateHolds(local, change, after)
                    then (if early <= late then early else late)
                    else if LateHolds(local, change, after) then late else early;
    if exists instant :: Reads(zone, instant, local) {
      assert IsEarliest(zone, earliest, local);
    } else {
      assert !Reads(zone, early, local) && !Reads(zone, late, local);
    }
  }
}
