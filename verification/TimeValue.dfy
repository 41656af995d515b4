/** Time values of a Date: milliseconds, within 10^8 days of the epoch. */
module TimeValue {
  import opened Options

  const MAX_TIME := 8640000000000000

  function TimeClip(ms: Option<int>): Option<int> {
    if ms.Some? && -MAX_TIME <= ms.value <= MAX_TIME then ms else None
  }
}
