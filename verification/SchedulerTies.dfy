/** Where conflicts come from: only a promotion that opens a trigger on an instant
    already recorded can lead to one, and one does. */
module SchedulerTies {
  import opened Wrappers
  import opened Cron
  import opened TriggerEvaluation
  import opened Scheduler
  import opened SchedulerRuns
  import opened SchedulerIntervals
  import opened SchedulerCoverage
  import opened SchedulerGuards

  /** An occurrence of the trigger inside the interval lies behind the cursor. */
  predicate Past(row: Row, a: Activation, k: Instant) {
    k == Key(row, a, k.at) && InInterval(a, k.at) ==> k.at < a.next
  }

  /** Nothing is recorded at or after a cursor inside its interval. */
  ghost predicate AheadFree(t: Tables) {
    forall row, k :: row in t.activations && k in t.occurrences ==> Past(row, t.activations[row], k)
  }

  lemma AheadFreeCursor(t: Tables, row: Row)
    requires AheadFree(t) && row in t.activations && InInterval(t.activations[row], t.activations[row].next)
    ensures !CursorRecorded(t, row)
  {
    var k := Key(row, t.activations[row], t.activations[row].next);
    assert k in t.occurrences ==> Past(row, t.activations[row], k);
  }

  lemma AheadFreeNeverConflicts(t: Tables, step: Step)
    requires Inv(t) && AheadFree(t) && Legal(t, step)
    ensures !Conflicts(t, step)
  {
    if CommitsDue(t, step) {
      CommittedShape(t, step);
      assert RowOk(t.activations[step.row]);
      AheadFreeCursor(t, step.row);
    }
    if step.Seal? {
      forall row | Sealable(t.activations, row, step.env, step.agent)
        ensures !CursorRecorded(t, row)
      {
        assert RowOk(t.activations[row]);
        AheadFreeCursor(t, row);
      }
    }
  }

  lemma NewIsPast(t: Tables, k: Instant, owner: Row, row: Row)
    requires Disjoint(t.activations) && RecordedFor(t, owner, k) && row in t.activations
    ensures Past(row, t.activations[row], k)
  {
    if k == Key(row, t.activations[row], k.at) {
      assert SameTrigger(row, t.activations[row], owner, t.activations[owner]);
    }
  }

  lemma StepAheadFree(t: Tables, t': Tables, now: int)
    requires AheadFree(t) && Disjoint(t'.activations) && Extends(t, t') && SameIntervals(t.activations, t'.activations)
    requires RecordedNow(t, t', now)
    ensures AheadFree(t')
  {
    forall row, k | row in t'.activations && k in t'.occurrences
      ensures Past(row, t'.activations[row], k)
    {
      if k in t.occurrences {
        assert Past(row, t.activations[row], k);
        assert RowLater(t.activations[row], t'.activations[row]);
      } else {
        NewIsPast(t', k, Row(k.env, t'.occurrences[k].activation), row);
      }
    }
  }

  // -------------------------------------------------------- promotion

  /** The promotion opens no trigger on an instant that is recorded already. */
  ghost predicate Clear(t: Tables, env: Id, cutover: int, ds: seq<Declaration>) {
    forall d :: d in ds && d.cron(cutover - NANOSECOND) == Some(cutover) ==> Instant(env, d.agent, d.trigger, cutover) !in t.occurrences
  }

  /** A later cutover is always clear. */
  lemma LaterIsClear(t: Tables, clock: int, env: Id, cutover: int, ds: seq<Declaration>)
    requires Core(t) && RecordedPast(t, clock) && clock < cutover
    ensures Clear(t, env, cutover, ds)
  {
    assert forall k :: k in t.occurrences ==> OccurrenceOk(t, k) && k.at < cutover;
  }

  /** After a promotion nothing is recorded at or after a cursor exactly when the
      promotion is clear, which a caller can check before it. */
  lemma PromotionIsAheadExactly(t: Tables, clock: int, env: Id, cutover: int, ds: seq<Declaration>)
    requires Core(t) && Timed(t, clock) && AheadFree(t) && clock <= cutover
    requires (forall d :: d in ds ==> Lawful(d.cron)) && Promoted(t, env, cutover, ds).Some?
    ensures AheadFree(Promoted(t, env, cutover, ds).value) <==> Clear(t, env, cutover, ds)
  {
    PromotionShape(t, env, cutover, ds);
    var t' := Promoted(t, env, cutover, ds).value;
    if AheadFree(t') {
      AheadMeansClear(t', env, cutover, ds);
    }
    if Clear(t, env, cutover, ds) {
      forall row, k | row in t'.activations && k in t'.occurrences
        ensures Past(row, t'.activations[row], k)
      {
        if row in t.activations {
          assert Past(row, t.activations[row], k);
        } else {
          var d :| d in ds && IsRowOf(row, t'.activations[row], env, cutover, d);
          assert OccurrenceOk(t, k) && k.at <= cutover;
          OpenedIsPast(t, row, t'.activations[row], env, cutover, ds, d, k);
        }
      }
    }
  }

  lemma AheadMeansClear(t: Tables, env: Id, cutover: int, ds: seq<Declaration>)
    requires AheadFree(t)
    requires forall d :: d in ds ==> Row(env, d.id) in t.activations && IsRowOf(Row(env, d.id), t.activations[Row(env, d.id)], env, cutover, d)
    ensures Clear(t, env, cutover, ds)
  {
    forall d | d in ds && d.cron(cutover - NANOSECOND) == Some(cutover)
      ensures Instant(env, d.agent, d.trigger, cutover) !in t.occurrences
    {
      AheadFreeCursor(t, Row(env, d.id));
    }
  }

  lemma OpenedIsPast(t: Tables, row: Row, a: Activation, env: Id, cutover: int, ds: seq<Declaration>, d: Declaration, k: Instant)
    requires Clear(t, env, cutover, ds) && d in ds && Lawful(d.cron) && IsRowOf(row, a, env, cutover, d)
    requires k in t.occurrences && k.at <= cutover
    ensures Past(row, a, k)
  {
    assert a.next > cutover - NANOSECOND;
  }

  /** A promotion that is not clear opens a row on an instant that another
      activation recorded. */
  lemma UnclearPromotionOpensOnRecord(t: Tables, env: Id, cutover: int, ds: seq<Declaration>) returns (row: Row)
    requires Core(t) && Promoted(t, env, cutover, ds).Some? && !Clear(t, env, cutover, ds)
    ensures var t' := Promoted(t, env, cutover, ds).value;
      && row in t'.activations && row !in t.activations
      && t'.activations[row].from == t'.activations[row].next == cutover
      && var k := Key(row, t'.activations[row], cutover);
         k in t'.occurrences && t'.occurrences[k].activation != row.id
  {
    var d :| d in ds && d.cron(cutover - NANOSECOND) == Some(cutover) && Instant(env, d.agent, d.trigger, cutover) in t.occurrences;
    row := Row(env, d.id);
    PromotionShape(t, env, cutover, ds);
    InsertAllIsNew(CloseOpen(t.activations, env, cutover).value, env, cutover, ds, d);
    assert OccurrenceOk(t, Instant(env, d.agent, d.trigger, cutover));
  }

  lemma {:induction false} InsertAllIsNew(rows: map<Row, Activation>, env: Id, cutover: int, ds: seq<Declaration>, d: Declaration)
    requires InsertAll(rows, env, cutover, ds).Some? && d in ds
    ensures Row(env, d.id) !in rows
  {
    var front := ds[..|ds| - 1];
    InsertAllShape(rows, env, cutover, front);
    if d in front {
      InsertAllIsNew(rows, env, cutover, front, d);
    }
  }

  /** Every occurrence lies inside the interval of its activation. */
  ghost predicate RecordedInside(t: Tables) {
    forall k :: k in t.occurrences ==> InsideOwn(t.activations, Row(k.env, t.occurrences[k].activation), k)
  }

  predicate InsideOwn(rows: map<Row, Activation>, row: Row, k: Instant) {
    row in rows && InInterval(rows[row], k.at)
  }

  /** A promotion leaves occurrences inside their intervals exactly when what is
      recorded for the rows it closes lies before the cutover. */
  lemma PromotionIsInsideExactly(t: Tables, env: Id, cutover: int, ds: seq<Declaration>)
    requires RecordedInside(t) && Promoted(t, env, cutover, ds).Some?
    ensures RecordedInside(Promoted(t, env, cutover, ds).value) <==>
      forall k :: k in t.occurrences && IsOpen(t.activations, Row(k.env, t.occurrences[k].activation), env) ==> k.at < cutover
  {
    PromotionShape(t, env, cutover, ds);
    var t' := Promoted(t, env, cutover, ds).value;
    forall k | k in t.occurrences
      ensures var row := Row(k.env, t.occurrences[k].activation);
        InsideOwn(t'.activations, row, k) <==> (IsOpen(t.activations, row, env) ==> k.at < cutover)
    {
      assert InsideOwn(t.activations, Row(k.env, t.occurrences[k].activation), k);
    }
  }

  // ------------------------------------------------------- whole runs

  /** A promotion that goes through is clear. */
  ghost predicate ClearStep(t: Tables, step: Step) {
    step.Promote? && Outcome(t, step).Some? ==> Clear(t, step.env, step.cutover, step.ds)
  }

  ghost predicate ClearRun(t: Tables, steps: seq<Step>)
    decreases |steps|
  {
    steps != [] ==> ClearStep(t, steps[0]) && ClearRun(Apply(t, steps[0]), steps[1..])
  }

  lemma SealKeepsAheadFree(t: Tables, env: Id, agent: Id, now: int, scan: seq<Id>, t': Tables)
    requires Core(t) && AheadFree(t) && Disjoint(t'.activations) && t' == Sealed(t, env, agent, now, scan)
    ensures AheadFree(t')
  {
    SealKeeps(t, env, agent, now, scan);
    SealRecordsNow(t, env, agent, now, scan);
    StepAheadFree(t, t', now);
  }

  lemma EvaluationKeepsAheadFree(t: Tables, row: Row, now: int, e: Evaluation, t': Tables)
    requires Core(t) && AheadFree(t) && Disjoint(t'.activations)
    requires row in t.activations && Sound(t.activations[row], now, e) && Commits(t, row, now, e, t')
    ensures AheadFree(t')
  {
    EvaluateExtends(t, row, now, e, t');
    EvaluationRecordsNow(t, row, now, e, t');
    StepAheadFree(t, t', now);
  }

  lemma StepKeepsAheadFree(t: Tables, clock: int, step: Step)
    requires Inv(t) && Timed(t, clock) && AheadFree(t) && Legal(t, step) && InOrder(clock, step) && !step.Promote?
    ensures AheadFree(Apply(t, step))
  {
    TimedStep(t, clock, step);
    if step.Seal? {
      SealKeepsAheadFree(t, step.env, step.agent, step.at, step.scan, Apply(t, step));
    } else if CommitsDue(t, step) {
      CommittedShape(t, step);
      EvaluationKeepsAheadFree(t, step.row, step.now, step.decision.value, Apply(t, step));
    } else {
      UncommittedIsIdle(t, step);
    }
  }

  /** A step keeps everything ahead of the cursors free exactly when it is not a
      promotion that is not clear. */
  lemma StepIsAheadExactly(t: Tables, clock: int, step: Step)
    requires Inv(t) && Timed(t, clock) && AheadFree(t) && Legal(t, step) && InOrder(clock, step)
    ensures AheadFree(Apply(t, step)) <==> ClearStep(t, step)
  {
    if !step.Promote? {
      StepKeepsAheadFree(t, clock, step);
    } else if Outcome(t, step).Some? {
      PromotionIsAheadExactly(t, clock, step.env, step.cutover, step.ds);
    }
  }

  /** Runs whose promotions are clear never conflict. */
  lemma {:induction false} ClearRunsNeverConflict(t: Tables, clock: int, steps: seq<Step>)
    requires Inv(t) && Timed(t, clock) && AheadFree(t) && OrderedRun(t, steps, clock) && ClearRun(t, steps)
    ensures NeverConflicts(t, steps)
    decreases |steps|
  {
    if steps != [] {
      AheadFreeNeverConflicts(t, steps[0]);
      StepIsAheadExactly(t, clock, steps[0]);
      StepKeeps(t, steps[0]);
      TimedStep(t, clock, steps[0]);
      ClearRunsNeverConflict(Apply(t, steps[0]), Reading(steps[0]), steps[1..]);
    }
  }

  /** Every promotion reads a clock later than all readings before it. */
  predicate LaterPromotions(steps: seq<Step>, clock: int) {
    steps != [] ==>
      (steps[0].Promote? ==> clock < Reading(steps[0])) && LaterPromotions(steps[1..], Reading(steps[0]))
  }

  /** Such runs are clear, whatever the schedules. */
  lemma {:induction false} LaterPromotionsAreClear(t: Tables, clock: int, steps: seq<Step>)
    requires Inv(t) && Timed(t, clock) && OrderedRun(t, steps, clock) && LaterPromotions(steps, clock)
    ensures ClearRun(t, steps)
    decreases |steps|
  {
    if steps != [] {
      if steps[0].Promote? {
        LaterIsClear(t, clock, steps[0].env, steps[0].cutover, steps[0].ds);
      }
      StepKeeps(t, steps[0]);
      TimedStep(t, clock, steps[0]);
      LaterPromotionsAreClear(Apply(t, steps[0]), Reading(steps[0]), steps[1..]);
    }
  }

  /** Nothing is recorded ahead in empty tables, so runs from there account for
      every instant when their promotions read later clocks. */
  lemma LaterPromotionsKeepTheAccount(clock: int, steps: seq<Step>)
    requires OrderedRun(EMPTY, steps, clock) && LaterPromotions(steps, clock)
    ensures AlwaysCovered(EMPTY, steps) && GuardsIdle(EMPTY, steps)
  {
    EmptyIsAccounted(clock);
    LaterPromotionsAreClear(EMPTY, clock, steps);
    ClearRunsNeverConflict(EMPTY, clock, steps);
    AccountIsKeptExactly(EMPTY, clock, steps);
    GuardsAreIdleExactly(EMPTY, clock, steps);
  }

  // -------------------------------------------------- a run that conflicts

  /** A schedule that fires at 0 and one minute later. */
  const TWICE: Schedule := t => if t < 0 then Some(0) else if t < MINUTE then Some(MINUTE) else None

  lemma TwiceAnswersLater(t: int)
    ensures TWICE(t).Some? ==> t < TWICE(t).value && TWICE(t).value % MICROSECOND == 0
  {
  }

  lemma TwiceAnswersAlike(t: int, s: int)
    requires TWICE(t).Some? && t <= s < TWICE(t).value
    ensures TWICE(s) == TWICE(t)
  {
  }

  lemma TwiceIsLawful()
    ensures Lawful(TWICE)
  {
    forall t ensures TWICE(t).Some? ==> t < TWICE(t).value && TWICE(t).value % MICROSECOND == 0 {
      TwiceAnswersLater(t);
    }
    forall t, s | TWICE(t).Some? && t <= s < TWICE(t).value ensures TWICE(s) == TWICE(t) {
      TwiceAnswersAlike(t, s);
    }
  }

  lemma TwiceFires()
    ensures IsInstant(TWICE, 0) && IsInstant(TWICE, MINUTE) && NoInstantIn(TWICE, 1, MINUTE - 1)
  {
  }

  function Declared(id: Id): Declaration {
    Declaration(id, 1, "trigger", TWICE, NoChannel)
  }

  const DECISION: Evaluation := Due(Some(0), None, MINUTE)

  const TIED: seq<Step> :=
    [Promote(1, 0, [Declared(1)]),
     Evaluate(Row(1, 1), 0, Success(DECISION), true, Admit(7)),
     Promote(1, 0, [Declared(2)]),
     Evaluate(Row(1, 2), 0, Success(DECISION), true, Admit(8))]

  const OPENED := Tables(map[Row(1, 1) := Opened(Declared(1), 0, 0)], map[], map[])

  const ADMITTED := Tables(map[Row(1, 1) := Opened(Declared(1), 0, MINUTE)],
                           map[Instant(1, 1, "trigger", 0) := Occurrence(1, Admitted(7), 0)],
                           map[7 := Instant(1, 1, "trigger", 0)])

  const REOPENED := Tables(map[Row(1, 1) := Opened(Declared(1), 0, MINUTE).(until := Some(0)),
                               Row(1, 2) := Opened(Declared(2), 0, 0)],
                           ADMITTED.occurrences, ADMITTED.sessions)

  const MOVED := REOPENED.(activations := REOPENED.activations[Row(1, 2) := Opened(Declared(2), 0, MINUTE)])

  lemma DecisionMeets()
    ensures Meets(TWICE, 0, None, 0, Success(DECISION))
  {
    TwiceFires();
    assert forall t :: -1 <= t <= 0 ==> TWICE(t).Some?;
    assert Decides(TWICE, 0, 0, 0, DECISION);
  }

  lemma TiedSteps()
    ensures Apply(EMPTY, TIED[0]) == OPENED
    ensures Apply(OPENED, TIED[1]) == ADMITTED
    ensures Apply(ADMITTED, TIED[2]) == REOPENED
    ensures Apply(REOPENED, TIED[3]) == MOVED
  {
    assert [Declared(1)][..0] == [] && [Declared(2)][..0] == [];
    var closed := CloseOpen(ADMITTED.activations, 1, 0);
    assert closed.value == map[Row(1, 1) := Opened(Declared(1), 0, MINUTE).(until := Some(0))];
  }

  lemma TiedIsOrdered()
    ensures OrderedRun(EMPTY, TIED, 0)
    ensures Run(EMPTY, TIED[..3]) == REOPENED && Run(EMPTY, TIED) == MOVED
  {
    TwiceIsLawful();
    DecisionMeets();
    TiedSteps();
    assert Legal(EMPTY, TIED[0]) && Legal(OPENED, TIED[1]) && Legal(ADMITTED, TIED[2]) && Legal(REOPENED, TIED[3]);
    var one, two, three := TIED[1..], TIED[2..], TIED[3..];
    assert one[1..] == two && two[1..] == three && three[1..] == [];
    assert one[0] == TIED[1] && two[0] == TIED[2] && three[0] == TIED[3];
    assert Apply(REOPENED, three[0]) == MOVED && Run(MOVED, []) == MOVED;
    assert Run(REOPENED, three) == Run(Apply(REOPENED, three[0]), three[1..]);
    assert OrderedRun(REOPENED, three, 0) && Run(REOPENED, three) == MOVED;
    assert OrderedRun(ADMITTED, two, 0) && Run(ADMITTED, two) == MOVED;
    assert OrderedRun(OPENED, one, 0) && Run(OPENED, one) == MOVED;
    assert TIED[..3][1..] == [TIED[1], TIED[2]] && [TIED[1], TIED[2]][1..] == [TIED[2]] && [TIED[2]][1..] == [];
    assert Run(ADMITTED, [TIED[2]]) == REOPENED && Run(OPENED, [TIED[1], TIED[2]]) == REOPENED;
  }

  /** Conflicts occur: all readings are equal, a promotion opens an activation on
      the instant an earlier activation admitted, and its evaluation moves past it.
      Only the existence check keeps a second Session from starting, and the
      tables no longer explain the instant for the new activation. */
  lemma EqualReadingsLoseTheAccount()
    ensures OrderedRun(EMPTY, TIED, 0)
    ensures Covered(Run(EMPTY, TIED[..3])) && Conflicts(Run(EMPTY, TIED[..3]), TIED[3])
    ensures Apply(Run(EMPTY, TIED[..3]), TIED[3]) != ApplyUnguarded(Run(EMPTY, TIED[..3]), TIED[3])
    ensures !Covered(Run(EMPTY, TIED)) && !AlwaysCovered(EMPTY, TIED)
  {
    TiedIsOrdered();
    TiedCoversBefore();
    ReopenedConflicts();
    StepGuardsExactly(REOPENED, 0, TIED[3]);
    TiedSteps();
    StepIsCoveredExactly(REOPENED, 0, TIED[3]);
    AlwaysCoveredEnds(EMPTY, TIED);
  }

  /** Before the last step the tables are still in order and explain everything. */
  lemma TiedCoversBefore()
    ensures Inv(REOPENED) && Timed(REOPENED, 0) && Covered(REOPENED) && Legal(REOPENED, TIED[3])
  {
    TwiceIsLawful();
    DecisionMeets();
    TiedSteps();
    EmptyIsAccounted(0);
    Advance(EMPTY, TIED[0]);
    Advance(OPENED, TIED[1]);
    Advance(ADMITTED, TIED[2]);
  }

  lemma Advance(t: Tables, step: Step)
    requires Accounted(t, 0) && Legal(t, step) && Reading(step) == 0 && !Conflicts(t, step)
    ensures Accounted(Apply(t, step), 0)
  {
    StepKeeps(t, step);
    TimedStep(t, 0, step);
    StepIsCoveredExactly(t, 0, step);
  }

  lemma {:induction false} AlwaysCoveredEnds(t: Tables, steps: seq<Step>)
    ensures AlwaysCovered(t, steps) ==> Covered(Run(t, steps))
    decreases |steps|
  {
    if steps != [] {
      AlwaysCoveredEnds(Apply(t, steps[0]), steps[1..]);
    }
  }

  lemma ReopenedConflicts()
    ensures Conflicts(REOPENED, TIED[3])
  {
    assert Key(Row(1, 2), REOPENED.activations[Row(1, 2)], 0) == Instant(1, 1, "trigger", 0);
  }
}
