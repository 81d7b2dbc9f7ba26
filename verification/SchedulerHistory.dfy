/** The account of every instant by the run that passed it. It needs no
    assumption on the clock: readings may repeat or go back. */
module SchedulerHistory {
  import opened Wrappers
  import opened Cron
  import opened TriggerEvaluation
  import opened Scheduler
  import opened SchedulerRuns
  import opened SchedulerIntervals

  /** The step moves the row's cursor past the instant and answers for it: as the
      evaluation that settles it, or as the deletion of the row's Agent, which
      records the cursor if it is due. */
  ghost predicate Passes(t: Tables, step: Step, row: Row, v: int) {
    && row in t.activations && row in Apply(t, step).activations
    && t.activations[row].next <= v < Apply(t, step).activations[row].next
    && match step
       case Promote(_, _, _) => false
       case Evaluate(r, now, decision, _, _) =>
         r == row && decision.Success? && decision.value.Due? && Settles(t, Apply(t, step), row, now, decision.value, v)
       case Seal(env, agent, at, _) =>
         && env == row.env && agent == t.activations[row].agent
         && (t.activations[row].next <= at ==> Key(row, t.activations[row], t.activations[row].next) in Apply(t, step).occurrences)
  }

  lemma PromotionKeepsCursors(t: Tables, step: Step, row: Row)
    requires step.Promote? && row in t.activations
    ensures row in Apply(t, step).activations && Apply(t, step).activations[row].next == t.activations[row].next
  {
    if Outcome(t, step).Some? {
      PromotionShape(t, step.env, step.cutover, step.ds);
    }
  }

  /** Only a committed evaluation of the row itself moves its cursor. */
  lemma EvaluationMovesItsRow(t: Tables, step: Step, row: Row)
    requires step.Evaluate? && row in t.activations && row in Apply(t, step).activations
    requires Apply(t, step).activations[row].next != t.activations[row].next
    ensures step.row == row && step.decision.Success? && step.decision.value.Due?
    ensures CommitEvaluation(t, row, step.now, step.decision.value, step.routeActive, step.attempt) == Some(Apply(t, step))
  {
  }

  lemma SealMovesItsRows(t: Tables, step: Step, row: Row)
    requires step.Seal? && Legal(t, step) && row in t.activations && row in Apply(t, step).activations
    requires Apply(t, step).activations[row].next != t.activations[row].next
    ensures step.env == row.env && step.agent == t.activations[row].agent
    ensures t.activations[row].next <= step.at ==> Key(row, t.activations[row], t.activations[row].next) in Apply(t, step).occurrences
  {
    MissSealedShape(t, step.env, step.agent, step.at, step.scan);
    assert row == Row(step.env, row.id) && row.id in step.scan;
  }

  /** A step that moves the cursor past an instant answers for it. */
  lemma MovingStepPasses(t: Tables, step: Step, row: Row, v: int)
    requires Inv(t) && Legal(t, step) && row in t.activations && IsInstant(t.activations[row].cron, v)
    requires row in Apply(t, step).activations && t.activations[row].next <= v < Apply(t, step).activations[row].next
    ensures Passes(t, step, row, v)
  {
    match step
    case Promote(_, _, _) => PromotionKeepsCursors(t, step, row);
    case Evaluate(_, now, decision, routeActive, attempt) =>
      EvaluationMovesItsRow(t, step, row);
      PassedInstantsAreAccountedFor(t, row, now, decision.value, routeActive, attempt, v);
    case Seal(_, _, _, _) => SealMovesItsRows(t, step, row);
  }

  /** A row appears only by promotion, having passed none of its instants. */
  lemma NewRowHasPassedNothing(t: Tables, step: Step, row: Row, v: int)
    requires Legal(t, step) && row !in t.activations && row in Apply(t, step).activations
    ensures var a := Apply(t, step).activations[row]; IsInstant(a.cron, v) && a.from <= v ==> a.next <= v
  {
    assert step.Promote? && Outcome(t, step).Some?;
    PromotionShape(t, step.env, step.cutover, step.ds);
    var d :| d in step.ds && IsRowOf(row, Apply(t, step).activations[row], step.env, step.cutover, d);
    OpenedHasPassedNothing(row, Apply(t, step).activations[row], step.env, step.cutover, d, v);
  }

  /** An instant of the activation behind its cursor. */
  ghost predicate PassedIn(t: Tables, row: Row, v: int) {
    row in t.activations && IsInstant(t.activations[row].cron, v) && t.activations[row].from <= v < t.activations[row].next
  }

  lemma PassedNowOrBefore(t: Tables, step: Step, row: Row, v: int)
    requires Inv(t) && Legal(t, step) && PassedIn(Apply(t, step), row, v)
    ensures Passes(t, step, row, v) || PassedIn(t, row, v)
  {
    StepKeeps(t, step);
    if row !in t.activations {
      NewRowHasPassedNothing(t, step, row, v);
    } else {
      assert RowLater(t.activations[row], Apply(t, step).activations[row]);
      if t.activations[row].next <= v {
        MovingStepPasses(t, step, row, v);
      }
    }
  }

  lemma RunEndsWith(steps: seq<Step>, n: nat)
    requires LegalRun(EMPTY, steps) && |steps| == n + 1
    ensures LegalRun(EMPTY, steps[..n]) && Inv(Run(EMPTY, steps[..n])) && Legal(Run(EMPTY, steps[..n]), steps[n])
    ensures Run(EMPTY, steps) == Apply(Run(EMPTY, steps[..n]), steps[n])
  {
    RunSplits(EMPTY, steps, n);
    RunKeeps(EMPTY, steps[..n]);
    assert steps[n..] == [steps[n]] && [steps[n]][1..] == [];
  }

  /** Over every run from empty tables, every instant of an activation behind its
      cursor was passed by a step of the run, which answers for it. */
  lemma {:induction false} EveryPassedInstantHasItsStep(steps: seq<Step>, row: Row, v: int)
    requires LegalRun(EMPTY, steps) && PassedIn(Run(EMPTY, steps), row, v)
    ensures exists i :: PassedBy(steps, row, v, i)
    decreases |steps|
  {
    assert steps != [];
    var n := |steps| - 1;
    RunEndsWith(steps, n);
    PassedNowOrBefore(Run(EMPTY, steps[..n]), steps[n], row, v);
    if PassedBy(steps, row, v, n) {
      return;
    }
    EveryPassedInstantHasItsStep(steps[..n], row, v);
    var i :| PassedBy(steps[..n], row, v, i);
    assert steps[..n][..i] == steps[..i] && PassedBy(steps, row, v, i);
  }

  /** Step `i` of the run passes the instant. */
  ghost predicate PassedBy(steps: seq<Step>, row: Row, v: int, i: int) {
    0 <= i < |steps| && Passes(Run(EMPTY, steps[..i]), steps[i], row, v)
  }

  /** No other step passes it: cursors never go back. */
  lemma OneStepPasses(steps: seq<Step>, row: Row, v: int, i: nat, j: nat)
    requires LegalRun(EMPTY, steps) && PassedBy(steps, row, v, i) && PassedBy(steps, row, v, j)
    ensures i == j
  {
    if i < j {
      CursorStaysPast(steps, row, v, i, j);
    } else if j < i {
      CursorStaysPast(steps, row, v, j, i);
    }
  }

  lemma CursorStaysPast(steps: seq<Step>, row: Row, v: int, i: nat, j: nat)
    requires LegalRun(EMPTY, steps) && i < j < |steps| && Passes(Run(EMPTY, steps[..i]), steps[i], row, v)
    ensures row in Run(EMPTY, steps[..j]).activations && v < Run(EMPTY, steps[..j]).activations[row].next
  {
    var front, t := steps[..j], Run(EMPTY, steps[..i]);
    RunSplits(EMPTY, steps, j);
    RunSplits(EMPTY, front, i);
    assert front[..i] == steps[..i] && front[i..][0] == steps[i];
    RunKeeps(EMPTY, steps[..i]);
    StepKeeps(t, steps[i]);
    RunKeeps(Apply(t, steps[i]), front[i..][1..]);
    assert RowLater(Apply(t, steps[i]).activations[row], Run(EMPTY, front).activations[row]);
  }
}
