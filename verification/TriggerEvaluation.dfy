/** Selection of the due instant of one trigger activation. */
module TriggerEvaluation {
  import opened Wrappers
  import opened Cron

  /** Catch-up window after a delay or outage. */
  const TRIGGER_LATENESS: int := 5 * MINUTE

  /** What one evaluation decides: nothing is due, or at most one instant to
      admit, at most one instant to record as missed, and the next cursor. */
  datatype Evaluation =
    | NotDue
    | Due(latest: Option<int>, missed: Option<int>, next: int)

  datatype CronError = CronError

  /** The last moment the evaluation may look at: `now`, or one microsecond
      before the end of a closed activation. */
  function End(until: Option<int>, now: int): int {
    if until.Some? && now >= until.value then until.value - MICROSECOND else now
  }

  /** The first moment an admitted instant may lie at. */
  function Lower(next: int, now: int): int {
    if now - TRIGGER_LATENESS < next then next else now - TRIGGER_LATENESS
  }

  /** `latest` is the greatest instant of the closed range, if it has one. */
  ghost predicate IsLatest(cron: Schedule, lo: int, hi: int, latest: Option<int>) {
    match latest
    case None => NoInstantIn(cron, lo, hi)
    case Some(v) => lo <= v <= hi && IsInstant(cron, v) && NoInstantIn(cron, v + 1, hi)
  }

  /** Some lookup the evaluation depends on has no answer. */
  ghost predicate LookupFails(cron: Schedule, lo: int, hi: int) {
    || cron(lo - NANOSECOND).None?
    || cron(hi).None?
    || exists t :: lo - NANOSECOND <= t <= hi && cron(t).None?
  }

  /** What an evaluation of a due cursor decides, by its meaning alone: the
      greatest instant of the window, whether the cursor itself is missed, and
      the least instant after the window. */
  ghost predicate Decides(cron: Schedule, next: int, lower: int, end: int, e: Evaluation) {
    && e.Due?
    && IsLatest(cron, lower, end, e.latest)
    && e.missed == (if e.latest == Some(next) then None else Some(next))
    && e.next > end && IsInstant(cron, e.next) && NoInstantIn(cron, end + 1, e.next - 1)
  }

  /** The result an evaluation must have, in every case. */
  ghost predicate Meets(cron: Schedule, next: int, until: Option<int>, now: int,
                        r: Result<Evaluation, CronError>) {
    var end := End(until, now);
    var lower := Lower(next, now);
    if next > end then
      r == Success(NotDue)
    else if LookupFails(cron, lower, end) then
      r == Failure(CronError)
    else
      r.Success? && Decides(cron, next, lower, end, r.value)
  }

  /** The search loop over the recovery window. */
  method LatestInstant(cron: Schedule, lower: int, end: int) returns (r: Result<Option<int>, CronError>)
    requires Lawful(cron)
    ensures r.Failure? ==> LookupFails(cron, lower, end)
    ensures r.Success? ==> IsLatest(cron, lower, end, r.value)
    ensures r.Success? ==> cron(lower - NANOSECOND).Some?
    ensures r.Success? ==> forall t :: lower - NANOSECOND <= t <= end ==> cron(t).Some?
  {
    var candidate := cron(lower - NANOSECOND);
    if candidate.None? {
      return Failure(CronError);
    }
    NextIsLeastLaterInstant(cron, lower - NANOSECOND);
    var latest: Option<int> := None;
    while candidate.value <= end
      invariant candidate.Some? && candidate.value >= lower && IsInstant(cron, candidate.value)
      invariant IsLatest(cron, lower, candidate.value - 1, latest)
      invariant latest.Some? ==> latest.value <= end
      invariant forall t :: lower - NANOSECOND <= t < candidate.value ==> cron(t).Some?
      decreases end - candidate.value
    {
      latest := candidate;
      candidate := cron(candidate.value);
      if candidate.None? {
        return Failure(CronError);
      }
      NextIsLeastLaterInstant(cron, latest.value);
    }
    r := Success(latest);
  }

  /** The evaluation of a cursor that is due at `end`. */
  method EvaluateDue(cron: Schedule, next: int, lower: int, end: int) returns (r: Result<Evaluation, CronError>)
    requires Lawful(cron)
    ensures r.Failure? <==> LookupFails(cron, lower, end)
    ensures r.Success? ==> Decides(cron, next, lower, end, r.value)
  {
    var latest := LatestInstant(cron, lower, end);
    if latest.Failure? {
      return Failure(CronError);
    }
    var following := cron(end);
    if following.None? {
      return Failure(CronError);
    }
    NextIsLeastLaterInstant(cron, end);
    var missed: Option<int> := None;
    if latest.value.None? || latest.value.value != next {
      missed := Some(next);
    }
    r := Success(Due(latest.value, missed, following.value));
  }

  method EvaluateTrigger(cron: Schedule, next: int, until: Option<int>, now: int)
    returns (r: Result<Evaluation, CronError>)
    requires Lawful(cron)
    ensures Meets(cron, next, until, now, r)
  {
    var end := now;
    if until.Some? && !(end < until.value) {
      end := until.value - MICROSECOND;
    }
    if next > end {
      return Success(NotDue);
    }
    var lower := now - TRIGGER_LATENESS;
    if lower < next {
      lower := next;
    }
    assert end == End(until, now) && lower == Lower(next, now);
    r := EvaluateDue(cron, next, lower, end);
    DueMeets(cron, next, until, now, r);
  }

  lemma DueMeets(cron: Schedule, next: int, until: Option<int>, now: int, r: Result<Evaluation, CronError>)
    requires next <= End(until, now)
    requires r.Failure? <==> LookupFails(cron, Lower(next, now), End(until, now))
    requires r.Success? ==> Decides(cron, next, Lower(next, now), End(until, now), r.value)
    ensures Meets(cron, next, until, now, r)
  {
    match r
    case Success(_) =>
    case Failure(e) => assert e == CronError;
  }

  /** The meaning leaves no freedom: two results that meet it are the same. */
  lemma MeaningIsUnique(cron: Schedule, next: int, until: Option<int>, now: int,
                        r: Result<Evaluation, CronError>, r': Result<Evaluation, CronError>)
    requires Meets(cron, next, until, now, r) && Meets(cron, next, until, now, r')
    ensures r == r'
  {
    match r
    case Success(Due(_, _, _)) =>
      assert r.value.next == r'.value.next;
      assert r.value.latest == r'.value.latest;
    case Success(NotDue) =>
    case Failure(_) =>
  }

  /** The cursor moves strictly forward; what is admitted lies at or after the
      cursor, before the end in force, and is at most the lateness old. */
  lemma EvaluationBounds(cron: Schedule, next: int, until: Option<int>, now: int, e: Evaluation)
    requires Lawful(cron)
    requires until.Some? ==> until.value % MICROSECOND == 0
    requires e.Due? && Meets(cron, next, until, now, Success(e))
    ensures next < e.next
    ensures until.Some? && now >= until.value ==> e.next >= until.value
    ensures e.latest.Some? ==>
      && next <= e.latest.value <= now
      && now - e.latest.value <= TRIGGER_LATENESS
      && (until.Some? ==> e.latest.value < until.value)
    ensures e.missed.Some? ==> e.missed == Some(next)
    ensures e.missed.None? ==> e.latest == Some(next)
  {
    assert cron(e.next - 1).value % MICROSECOND == 0;
  }

  /** What is passed over without being admitted is older than the admitted
      instant or, when none is admitted, older than the lateness. */
  lemma PassedOver(cron: Schedule, next: int, until: Option<int>, now: int, e: Evaluation, v: int)
    requires e.Due? && Meets(cron, next, until, now, Success(e))
    requires IsInstant(cron, v) && next <= v < e.next
    ensures if e.latest.Some? then v <= e.latest.value else v < now - TRIGGER_LATENESS
  {
    assert v <= End(until, now);
  }
}
