/** The conflict guards: what the steps would do without ON CONFLICT and without
    the existence check, and exactly when that makes a difference. */
module SchedulerGuards {
  import opened Wrappers
  import opened Cron
  import opened TriggerEvaluation
  import opened Scheduler
  import opened SchedulerRuns
  import opened SchedulerIntervals
  import opened SchedulerCoverage

  /** The commit of an evaluation with neither ON CONFLICT nor the existence check. */
  function CommitUnguarded(t: Tables, row: Row, now: int, e: Evaluation, routeActive: bool, attempt: Attempt): Option<Tables>
    requires row in t.activations && e.Due?
  {
    var a := t.activations[row];
    var moved := t.activations[row := a.(next := e.next)];
    var reason := if e.latest.None? then LatenessExceeded else Superseded;
    var missed := if e.missed.None? then t.occurrences
                  else t.occurrences[Key(row, a, e.missed.value) := Occurrence(row.id, Missed(reason), now)];
    if e.latest.None? then Some(Tables(moved, missed, t.sessions))
    else
      var k := Key(row, a, e.latest.value);
      match AdmitScheduledSession(a, routeActive, t.sessions, attempt)
      case Fail => None
      case Refuse(refusal) => Some(Tables(moved, missed[k := Occurrence(row.id, Rejected(refusal), now)], t.sessions))
      case Admit(session) =>
        Some(Tables(moved, missed[k := Occurrence(row.id, Admitted(session), now)], t.sessions[session := k]))
  }

  function EvaluatedUnguarded(t: Tables, row: Row, now: int, decision: Result<Evaluation, CronError>,
                              routeActive: bool, attempt: Attempt): Option<Tables> {
    if row.env == NIL || row.id == NIL then None
    else if row !in t.activations then Some(t)
    else match decision
      case Failure(_) => None
      case Success(NotDue) => Some(t)
      case Success(Due(_, _, _)) => CommitUnguarded(t, row, now, decision.value, routeActive, attempt)
  }

  /** The cursors a deletion records, each overwriting what is there. */
  function MissUnguarded(t: Tables, env: Id, agent: Id, now: int, scan: seq<Id>): map<Instant, Occurrence> {
    if scan == [] then t.occurrences
    else
      var before := MissUnguarded(t, env, agent, now, scan[..|scan| - 1]);
      var row := Row(env, scan[|scan| - 1]);
      if Sealable(t.activations, row, env, agent) && t.activations[row].next <= now then
        before[Key(row, t.activations[row], t.activations[row].next) := Occurrence(row.id, Missed(AgentDeleted), now)]
      else before
  }

  function ApplyUnguarded(t: Tables, step: Step): Tables {
    match step
    case Promote(_, _, _) => Apply(t, step)
    case Seal(env, agent, at, scan) =>
      t.(activations := SealRows(t.activations, env, agent), occurrences := MissUnguarded(t, env, agent, at, scan))
    case Evaluate(row, now, decision, routeActive, attempt) =>
      match EvaluatedUnguarded(t, row, now, decision, routeActive, attempt)
      case None => t
      case Some(t') => t'
  }

  // ------------------------------------------------------- evaluation

  /** A cursor on no recorded instant: the guards of the evaluation do nothing. */
  lemma EvaluationNeedsNoGuard(t: Tables, row: Row, now: int, e: Evaluation, routeActive: bool, attempt: Attempt)
    requires NoneAhead(t) && RowsOk(t.activations) && row in t.activations && !CursorRecorded(t, row)
    requires Sound(t.activations[row], now, e)
    ensures CommitEvaluation(t, row, now, e, routeActive, attempt) == CommitUnguarded(t, row, now, e, routeActive, attempt)
  {
    var a := t.activations[row];
    assert RowOk(a);
    if e.latest.Some? {
      AheadIsUnrecorded(t, row, e.latest.value);
    }
  }

  /** A cursor on a recorded instant: a committed evaluation keeps the record, and
      without its guards would overwrite it or not commit. */
  lemma EvaluationNeedsItsGuard(t: Tables, row: Row, now: int, e: Evaluation, routeActive: bool, attempt: Attempt, t': Tables)
    requires Core(t) && NoneAhead(t) && row in t.activations && CursorRecorded(t, row) && Sound(t.activations[row], now, e)
    requires CommitEvaluation(t, row, now, e, routeActive, attempt) == Some(t')
    ensures CommitUnguarded(t, row, now, e, routeActive, attempt) != Some(t')
  {
    assert RowOk(t.activations[row]);
    RecordedCursorIsForeign(t, row);
    CommitShape(t, row, now, e, routeActive, attempt);
    PlainOverwrites(t, row, now, e, routeActive, attempt);
    assert t'.occurrences[Key(row, t.activations[row], t.activations[row].next)].activation != row.id;
  }

  lemma PlainOverwrites(t: Tables, row: Row, now: int, e: Evaluation, routeActive: bool, attempt: Attempt)
    requires row in t.activations && Sound(t.activations[row], now, e)
    ensures var k, plain := Key(row, t.activations[row], t.activations[row].next), CommitUnguarded(t, row, now, e, routeActive, attempt);
      plain.Some? ==> k in plain.value.occurrences && plain.value.occurrences[k].activation == row.id
  {
  }

  lemma EvaluationGuardsExactly(t: Tables, step: Step)
    requires step.Evaluate? && Inv(t) && NoneAhead(t) && Legal(t, step)
    ensures Apply(t, step) == ApplyUnguarded(t, step) <==> !Conflicts(t, step)
  {
    var Evaluate(row, now, decision, routeActive, attempt) := step;
    if row.env != NIL && row.id != NIL && row in t.activations && decision.Success? && decision.value.Due? {
      DecisionsAreSound(t.activations[row], now, decision.value);
      DueGuardsExactly(t, step, row, now, decision.value, routeActive, attempt);
    }
  }

  lemma DueGuardsExactly(t: Tables, step: Step, row: Row, now: int, e: Evaluation, routeActive: bool, attempt: Attempt)
    requires step == Evaluate(row, now, Success(e), routeActive, attempt) && row.env != NIL && row.id != NIL
    requires Core(t) && NoneAhead(t) && row in t.activations && e.Due? && Sound(t.activations[row], now, e)
    ensures Apply(t, step) == ApplyUnguarded(t, step) <==> !Conflicts(t, step)
  {
    if !CursorRecorded(t, row) {
      EvaluationNeedsNoGuard(t, row, now, e, routeActive, attempt);
    } else if CommitEvaluation(t, row, now, e, routeActive, attempt).Some? {
      EvaluationNeedsItsGuard(t, row, now, e, routeActive, attempt, Apply(t, step));
      CursorMoves(t, row, now, e, routeActive, attempt, Apply(t, step));
    } else {
      FailureIsFailure(t, row, now, e, routeActive, attempt);
    }
  }

  lemma CursorMoves(t: Tables, row: Row, now: int, e: Evaluation, routeActive: bool, attempt: Attempt, t': Tables)
    requires row in t.activations && Sound(t.activations[row], now, e)
    requires CommitEvaluation(t, row, now, e, routeActive, attempt) == Some(t')
    ensures t' != t
  {
    assert t'.activations[row].next != t.activations[row].next;
  }

  /** A rolled-back evaluation rolls back without its guards too. */
  lemma FailureIsFailure(t: Tables, row: Row, now: int, e: Evaluation, routeActive: bool, attempt: Attempt)
    requires row in t.activations && e.Due? && CommitEvaluation(t, row, now, e, routeActive, attempt).None?
    ensures CommitUnguarded(t, row, now, e, routeActive, attempt).None?
  {
  }

  // ---------------------------------------------------------- sealing

  /** The row's cursor is one the sealing records. */
  predicate Records(t: Tables, env: Id, agent: Id, now: int, scan: seq<Id>, row: Row) {
    Sealable(t.activations, row, env, agent) && t.activations[row].next <= now && row.id in scan
  }

  /** Two sealable rows never share the instant of their cursors. */
  lemma CursorsDiffer(t: Tables, env: Id, agent: Id, row: Row, row': Row)
    requires RowsOk(t.activations) && Disjoint(t.activations)
    requires Sealable(t.activations, row, env, agent) && Sealable(t.activations, row', env, agent)
    requires Key(row, t.activations[row], t.activations[row].next) == Key(row', t.activations[row'], t.activations[row'].next)
    ensures row == row'
  {
    assert RowOk(t.activations[row]) && RowOk(t.activations[row']);
    assert SameTrigger(row, t.activations[row], row', t.activations[row']);
  }

  lemma {:induction false} SealingNeedsNoGuard(t: Tables, env: Id, agent: Id, now: int, scan: seq<Id>)
    requires RowsOk(t.activations) && Disjoint(t.activations)
    requires forall row :: Records(t, env, agent, now, scan, row) ==> !CursorRecorded(t, row)
    ensures MissSealed(t, env, agent, now, scan) == MissUnguarded(t, env, agent, now, scan)
  {
    if scan != [] {
      var front, id := scan[..|scan| - 1], scan[|scan| - 1];
      assert scan == front + [id];
      SealingNeedsNoGuard(t, env, agent, now, front);
      if Records(t, env, agent, now, scan, Row(env, id)) {
        SealedOnce(t, env, agent, now, front, Row(env, id));
      }
    }
  }

  /** What the scan has recorded under the row's cursor is the row's own. */
  lemma SealedOnce(t: Tables, env: Id, agent: Id, now: int, scan: seq<Id>, row: Row)
    requires RowsOk(t.activations) && Disjoint(t.activations)
    requires Sealable(t.activations, row, env, agent) && !CursorRecorded(t, row)
    ensures var k, done := Key(row, t.activations[row], t.activations[row].next), MissSealed(t, env, agent, now, scan);
      k in done ==> done[k] == Occurrence(row.id, Missed(AgentDeleted), now)
  {
    MissSealedShape(t, env, agent, now, scan);
    var k, done := Key(row, t.activations[row], t.activations[row].next), MissSealed(t, env, agent, now, scan);
    if k in done {
      CursorsDiffer(t, env, agent, row, Row(env, done[k].activation));
    }
  }

  /** Without the guard the sealing writes its own record over what is there. */
  lemma {:induction false} UnguardedOverwrites(t: Tables, env: Id, agent: Id, now: int, scan: seq<Id>, row: Row)
    requires RowsOk(t.activations) && Disjoint(t.activations) && Records(t, env, agent, now, scan, row)
    ensures var k := Key(row, t.activations[row], t.activations[row].next);
      var done := MissUnguarded(t, env, agent, now, scan);
      k in done && done[k].activation == row.id
  {
    var front, id := scan[..|scan| - 1], scan[|scan| - 1];
    assert scan == front + [id];
    if Row(env, id) != row {
      UnguardedOverwrites(t, env, agent, now, front, row);
      if Sealable(t.activations, Row(env, id), env, agent)
         && Key(Row(env, id), t.activations[Row(env, id)], t.activations[Row(env, id)].next)
            == Key(row, t.activations[row], t.activations[row].next) {
        CursorsDiffer(t, env, agent, row, Row(env, id));
      }
    }
  }

  lemma SealingNeedsItsGuard(t: Tables, env: Id, agent: Id, now: int, scan: seq<Id>, row: Row)
    requires Core(t) && NoneAhead(t) && Disjoint(t.activations)
    requires Records(t, env, agent, now, scan, row) && CursorRecorded(t, row)
    ensures MissSealed(t, env, agent, now, scan) != MissUnguarded(t, env, agent, now, scan)
  {
    assert RowOk(t.activations[row]);
    RecordedCursorIsForeign(t, row);
    MissSealedShape(t, env, agent, now, scan);
    UnguardedOverwrites(t, env, agent, now, scan, row);
  }

  lemma SealingGuardsExactly(t: Tables, clock: int, step: Step)
    requires step.Seal? && Inv(t) && Timed(t, clock) && Legal(t, step) && InOrder(clock, step)
    ensures Apply(t, step) == ApplyUnguarded(t, step) <==> !Conflicts(t, step)
  {
    var Seal(env, agent, at, scan) := step;
    assert forall row :: Sealable(t.activations, row, env, agent) ==> Records(t, env, agent, at, scan, row);
    if Conflicts(t, step) {
      var row :| Sealable(t.activations, row, env, agent) && CursorRecorded(t, row);
      SealingNeedsItsGuard(t, env, agent, at, scan, row);
    } else {
      SealingNeedsNoGuard(t, env, agent, at, scan);
    }
  }

  // ------------------------------------------------------- whole runs

  /** The guards change what a step does exactly when the step conflicts. */
  lemma StepGuardsExactly(t: Tables, clock: int, step: Step)
    requires Inv(t) && Timed(t, clock) && Legal(t, step) && InOrder(clock, step)
    ensures Apply(t, step) == ApplyUnguarded(t, step) <==> !Conflicts(t, step)
  {
    match step
    case Promote(_, _, _) =>
    case Seal(_, _, _, _) => SealingGuardsExactly(t, clock, step);
    case Evaluate(_, _, _, _, _) => EvaluationGuardsExactly(t, step);
  }

  /** No step of the run needs a guard. */
  ghost predicate GuardsIdle(t: Tables, steps: seq<Step>)
    decreases |steps|
  {
    steps != [] ==> Apply(t, steps[0]) == ApplyUnguarded(t, steps[0]) && GuardsIdle(Apply(t, steps[0]), steps[1..])
  }

  ghost function RunUnguarded(t: Tables, steps: seq<Step>): Tables
    decreases |steps|
  {
    if steps == [] then t else RunUnguarded(ApplyUnguarded(t, steps[0]), steps[1..])
  }

  /** Over every run with non-decreasing readings the guards are idle exactly when
      no step conflicts, and then the run without guards ends in the same tables. */
  lemma {:induction false} GuardsAreIdleExactly(t: Tables, clock: int, steps: seq<Step>)
    requires Inv(t) && Timed(t, clock) && OrderedRun(t, steps, clock)
    ensures GuardsIdle(t, steps) <==> NeverConflicts(t, steps)
    ensures NeverConflicts(t, steps) ==> Run(t, steps) == RunUnguarded(t, steps)
    decreases |steps|
  {
    if steps != [] {
      StepGuardsExactly(t, clock, steps[0]);
      StepKeeps(t, steps[0]);
      TimedStep(t, clock, steps[0]);
      GuardsAreIdleExactly(Apply(t, steps[0]), Reading(steps[0]), steps[1..]);
    }
  }
}
