/** Cron schedules as strict-successor functions on the time line.

    Times are nanoseconds. A schedule stands for `NextCronTime` at one fixed
    expression and timezone; `None` is its error result. The calendar itself is
    a parameter: everything proved holds for every lawful schedule. */
module Cron {
  import opened Wrappers

  const NANOSECOND: int := 1
  const MICROSECOND: int := 1000
  const MINUTE: int := 60 * 1000 * 1000 * 1000

  type Schedule = int -> Option<int>

  /** The schedule answers with a later instant on the microsecond grid, and
      answers the same from every anchor before that instant. */
  ghost predicate Lawful(cron: Schedule) {
    && (forall t :: cron(t).Some? ==> t < cron(t).value && cron(t).value % MICROSECOND == 0)
    && (forall t, s :: cron(t).Some? && t <= s < cron(t).value ==> cron(s) == cron(t))
  }

  /** The instants a schedule fires at. */
  ghost predicate IsInstant(cron: Schedule, at: int) {
    cron(at - 1) == Some(at)
  }

  /** No instant of the schedule lies in the closed range. */
  ghost predicate NoInstantIn(cron: Schedule, lo: int, hi: int) {
    forall v :: lo <= v <= hi ==> !IsInstant(cron, v)
  }

  /** A lawful schedule returns the least instant after its anchor. */
  lemma NextIsLeastLaterInstant(cron: Schedule, anchor: int)
    requires Lawful(cron)
    requires cron(anchor).Some?
    ensures IsInstant(cron, cron(anchor).value)
    ensures NoInstantIn(cron, anchor + 1, cron(anchor).value - 1)
  {
    var u := cron(anchor).value;
    assert cron(u - 1) == cron(anchor);
    forall v | anchor < v < u
      ensures !IsInstant(cron, v)
    {
      assert cron(v - 1) == cron(anchor);
    }
  }
}
