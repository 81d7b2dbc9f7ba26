/** What the trigger tables alone prove about the past, over every run whose clock
    readings never go back: throughout a run every instant a cursor has passed is
    explained by occurrences of the same activation exactly when no step moves a
    cursor off an instant that another activation has recorded. */
module SchedulerCoverage {
  import opened Wrappers
  import opened Cron
  import opened TriggerEvaluation
  import opened Scheduler
  import opened SchedulerRuns
  import opened SchedulerIntervals

  /** The occurrence `k` of the activation accounts for its instant `v`: it is
      the record of `v`; or the cursor was missed when `v` was already too late;
      or the Agent was deleted. */
  predicate Explains(t: Tables, row: Row, v: int, k: Instant)
    requires row in t.activations
  {
    && Own(t, row, k)
    && var o := t.occurrences[k];
       || k.at == v
       || (k.at < v < o.evaluatedAt - TRIGGER_LATENESS && o.disposition == Missed(LatenessExceeded))
       || (k.at < v && o.disposition == Missed(AgentDeleted))
  }

  predicate Own(t: Tables, row: Row, k: Instant)
    requires row in t.activations
  {
    k in t.occurrences && t.occurrences[k].activation == row.id && k == Key(row, t.activations[row], k.at)
  }

  /** One evaluation chose `k` over `v`: it recorded its cursor `c` before `v` as
      superseded and admitted or rejected `k` after `v`. */
  predicate Supersedes(t: Tables, row: Row, v: int, c: Instant, k: Instant)
    requires row in t.activations
  {
    && Own(t, row, c) && Own(t, row, k) && c.at < v < k.at
    && !t.occurrences[k].disposition.Missed?
    && t.occurrences[c] == Occurrence(row.id, Missed(Superseded), t.occurrences[k].evaluatedAt)
  }

  ghost predicate Explained(t: Tables, row: Row, v: int)
    requires row in t.activations
  {
    (exists k :: Explains(t, row, v, k)) || (exists c, k :: Supersedes(t, row, v, c, k))
  }

  ghost predicate RowCovered(t: Tables, row: Row)
    requires row in t.activations
  {
    forall v :: Passed(t.activations[row], v) ==> Explained(t, row, v)
  }

  ghost predicate Covered(t: Tables) {
    forall row :: row in t.activations ==> RowCovered(t, row)
  }

  /** The tables keep the occurrences and the triggers of their rows. */
  ghost predicate Keeps(t: Tables, t': Tables) {
    && (forall k :: k in t.occurrences ==> k in t'.occurrences && t'.occurrences[k] == t.occurrences[k])
    && (forall row :: row in t.activations ==>
          && row in t'.activations
          && t'.activations[row].agent == t.activations[row].agent && t'.activations[row].trigger == t.activations[row].trigger)
  }

  lemma ExplanationKept(t: Tables, t': Tables, row: Row, v: int)
    requires Keeps(t, t') && row in t.activations && Explained(t, row, v)
    ensures Explained(t', row, v)
  {
    if k :| Explains(t, row, v, k) {
      assert Explains(t', row, v, k);
    } else {
      var c, k :| Supersedes(t, row, v, c, k);
      assert Supersedes(t', row, v, c, k);
    }
  }

  lemma ExtendsKeeps(t: Tables, t': Tables)
    requires Extends(t, t')
    ensures Keeps(t, t')
  {
    assert forall row :: row in t.activations ==> RowLater(t.activations[row], t'.activations[row]);
  }

  // -------------------------------------------------------- conflicts

  /** The instant the cursor stands on is recorded. */
  ghost predicate CursorRecorded(t: Tables, row: Row)
    requires row in t.activations
  {
    Key(row, t.activations[row], t.activations[row].next) in t.occurrences
  }

  /** The step moves a cursor that stands on a recorded instant: a committed
      evaluation of the row, or the sealing of its Agent. */
  ghost predicate Conflicts(t: Tables, step: Step) {
    match step
    case Promote(_, _, _) => false
    case Evaluate(row, _, _, _, _) => CommitsDue(t, step) && CursorRecorded(t, row)
    case Seal(env, agent, _, _) => exists row :: Sealable(t.activations, row, env, agent) && CursorRecorded(t, row)
  }

  /** Inside the interval nothing is recorded from the cursor on, unless it is the
      instant the cursor stands on. */
  lemma AheadIsUnrecorded(t: Tables, row: Row, v: int)
    requires NoneAhead(t) && row in t.activations && InInterval(t.activations[row], v)
    requires t.activations[row].next < v || (t.activations[row].next == v && !CursorRecorded(t, row))
    ensures Key(row, t.activations[row], v) !in t.occurrences
  {
    var k := Key(row, t.activations[row], v);
    assert k in t.occurrences ==> Behind(row, t.activations[row], k);
  }

  /** A recorded instant a cursor stands on is the start of its interval and was
      recorded by another activation. */
  lemma RecordedCursorIsForeign(t: Tables, row: Row)
    requires Core(t) && NoneAhead(t) && row in t.activations
    requires InInterval(t.activations[row], t.activations[row].next) && CursorRecorded(t, row)
    ensures t.activations[row].from == t.activations[row].next
    ensures t.occurrences[Key(row, t.activations[row], t.activations[row].next)].activation != row.id
  {
    var k := Key(row, t.activations[row], t.activations[row].next);
    assert Behind(row, t.activations[row], k);
    assert OccurrenceOk(t, k);
  }

  /** Once a cursor has moved off an instant another activation recorded, no later
      tables explain that instant by the row's own occurrences. */
  lemma RecordedCursorIsNeverExplained(t: Tables, t': Tables, row: Row)
    requires Core(t') && Extends(t, t') && row in t.activations
    requires t.activations[row].from == t.activations[row].next && CursorRecorded(t, row)
    requires t.occurrences[Key(row, t.activations[row], t.activations[row].next)].activation != row.id
    ensures !Explained(t', row, t.activations[row].next)
    ensures Passed(t'.activations[row], t.activations[row].next) ==> !Covered(t')
  {
    assert RowLater(t.activations[row], t'.activations[row]);
    forall k | Own(t', row, k)
      ensures k.at > t.activations[row].next
    {
      OwnIsLater(t, t', row, k);
    }
    assert Passed(t'.activations[row], t.activations[row].next) ==> !RowCovered(t', row);
  }

  lemma OwnIsLater(t: Tables, t': Tables, row: Row, k: Instant)
    requires Core(t') && Extends(t, t') && row in t.activations && row in t'.activations && Own(t', row, k)
    requires RowLater(t.activations[row], t'.activations[row])
    requires t.activations[row].from == t.activations[row].next && CursorRecorded(t, row)
    requires t.occurrences[Key(row, t.activations[row], t.activations[row].next)].activation != row.id
    ensures k.at > t.activations[row].next
  {
    var start := Key(row, t.activations[row], t.activations[row].next);
    assert t'.occurrences[start] == t.occurrences[start];
    OwnIsInside(t', row, k);
  }

  lemma OwnIsInside(t: Tables, row: Row, k: Instant)
    requires Core(t) && row in t.activations && Own(t, row, k)
    ensures t.activations[row].from <= k.at < t.activations[row].next
  {
    assert OccurrenceOk(t, k);
    assert row == Row(k.env, t.occurrences[k].activation);
  }

  // ------------------------------------------------------- evaluation

  /** An instant this evaluation moves the cursor past is explained by what it
      records. */
  lemma EvaluationExplains(t: Tables, row: Row, now: int, e: Evaluation, t': Tables, v: int)
    requires NoneAhead(t) && RowsOk(t.activations)
    requires row in t.activations && !CursorRecorded(t, row) && Sound(t.activations[row], now, e) && Commits(t, row, now, e, t')
    requires t.activations[row].next <= v && InInterval(t.activations[row], v)
    requires if e.latest.Some? then v <= e.latest.value else v < now - TRIGGER_LATENESS
    ensures Explained(t', row, v)
  {
    var a := t.activations[row];
    assert RowOk(a);
    var c := Key(row, a, a.next);
    assert Adds(t, row, now, e, t', c);
    if e.latest.None? || v == a.next {
      assert Explains(t', row, v, c);
    } else {
      var k := Key(row, a, e.latest.value);
      AheadIsUnrecorded(t, row, e.latest.value);
      assert Adds(t, row, now, e, t', k);
      assert if v == e.latest.value then Explains(t', row, v, k) else Supersedes(t', row, v, c, k);
    }
  }

  lemma EvaluateCovers(t: Tables, row: Row, now: int, e: Evaluation, t': Tables)
    requires Core(t) && NoneAhead(t) && Covered(t)
    requires row in t.activations && !CursorRecorded(t, row) && Sound(t.activations[row], now, e) && Commits(t, row, now, e, t')
    requires var a := t.activations[row]; forall v :: IsInstant(a.cron, v) && a.next <= v < e.next ==>
      if e.latest.Some? then v <= e.latest.value else v < now - TRIGGER_LATENESS
    ensures Covered(t')
  {
    EvaluateExtends(t, row, now, e, t');
    ExtendsKeeps(t, t');
    forall r | r in t'.activations
      ensures RowCovered(t', r)
    {
      assert RowCovered(t, r);
      forall v | Passed(t'.activations[r], v)
        ensures Explained(t', r, v)
      {
        if Passed(t.activations[r], v) {
          ExplanationKept(t, t', r, v);
        } else {
          EvaluationExplains(t, row, now, e, t', v);
        }
      }
    }
  }

  /** A committed evaluation that moves a conflicting cursor loses the account. */
  lemma EvaluateUncovers(t: Tables, row: Row, now: int, e: Evaluation, t': Tables)
    requires Core(t) && NoneAhead(t)
    requires row in t.activations && CursorRecorded(t, row) && Sound(t.activations[row], now, e) && Commits(t, row, now, e, t')
    ensures !Covered(t')
  {
    assert RowOk(t.activations[row]);
    RecordedCursorIsForeign(t, row);
    EvaluateKeeps(t, row, now, e, t');
    RecordedCursorIsNeverExplained(t, t', row);
  }

  // -------------------------------------------------------- promotion

  lemma ReopenedCovers(t: Tables, t': Tables, env: Id, cutover: int, row: Row)
    requires row in t.activations && RowCovered(t, row) && Keeps(t, t')
    requires t'.activations[row] == if IsOpen(t.activations, row, env) then t.activations[row].(until := Some(cutover)) else t.activations[row]
    ensures RowCovered(t', row)
  {
    forall v | Passed(t'.activations[row], v)
      ensures Explained(t', row, v)
    {
      assert Passed(t.activations[row], v);
      ExplanationKept(t, t', row, v);
    }
  }

  /** A promotion keeps every explanation, and a row it opens has passed nothing. */
  lemma PromoteCovers(t: Tables, env: Id, cutover: int, ds: seq<Declaration>)
    requires Covered(t) && (forall d :: d in ds ==> Lawful(d.cron)) && Promoted(t, env, cutover, ds).Some?
    ensures Covered(Promoted(t, env, cutover, ds).value)
  {
    PromotionShape(t, env, cutover, ds);
    var t' := Promoted(t, env, cutover, ds).value;
    forall row | row in t'.activations
      ensures RowCovered(t', row)
    {
      if row in t.activations {
        ReopenedCovers(t, t', env, cutover, row);
      } else {
        var d :| d in ds && IsRowOf(row, t'.activations[row], env, cutover, d);
        forall v ensures !Passed(t'.activations[row], v) {
          OpenedHasPassedNothing(row, t'.activations[row], env, cutover, d, v);
        }
      }
    }
  }

  // ---------------------------------------------------------- sealing

  /** Every unfinished closed row of the Agent whose cursor stands on no recorded
      instant gets its cursor recorded. */
  lemma SealRecords(t: Tables, clock: int, env: Id, agent: Id, now: int, scan: seq<Id>, row: Row)
    requires Core(t) && Timed(t, clock) && clock <= now && Covers(t, env, agent, scan)
    requires Sealable(t.activations, row, env, agent) && !CursorRecorded(t, row)
    ensures var k := Key(row, t.activations[row], t.activations[row].next);
      var t' := Sealed(t, env, agent, now, scan);
      k in t'.occurrences && t'.occurrences[k] == Occurrence(row.id, Missed(AgentDeleted), now)
  {
    MissSealedShape(t, env, agent, now, scan);
    var a := t.activations[row];
    var k := Key(row, a, a.next);
    assert row == Row(env, row.id) && row.id in scan;
    var row' := Row(env, Sealed(t, env, agent, now, scan).occurrences[k].activation);
    assert RowOk(a) && RowOk(t.activations[row']);
    assert SameTrigger(row, a, row', t.activations[row']);
  }

  lemma SealCovers(t: Tables, clock: int, env: Id, agent: Id, now: int, scan: seq<Id>)
    requires Core(t) && Timed(t, clock) && Covered(t) && clock <= now && Covers(t, env, agent, scan)
    requires forall row :: Sealable(t.activations, row, env, agent) ==> !CursorRecorded(t, row)
    ensures Covered(Sealed(t, env, agent, now, scan))
  {
    SealKeeps(t, env, agent, now, scan);
    var t' := Sealed(t, env, agent, now, scan);
    ExtendsKeeps(t, t');
    forall row | row in t'.activations
      ensures RowCovered(t', row)
    {
      assert RowCovered(t, row);
      forall v | Passed(t'.activations[row], v)
        ensures Explained(t', row, v)
      {
        if Passed(t.activations[row], v) {
          ExplanationKept(t, t', row, v);
        } else {
          SealRecords(t, clock, env, agent, now, scan, row);
          assert Explains(t', row, v, Key(row, t.activations[row], t.activations[row].next));
        }
      }
    }
  }

  lemma SealUncovers(t: Tables, env: Id, agent: Id, now: int, scan: seq<Id>, row: Row)
    requires Core(t) && NoneAhead(t) && Sealable(t.activations, row, env, agent) && CursorRecorded(t, row)
    ensures !Covered(Sealed(t, env, agent, now, scan))
  {
    assert RowOk(t.activations[row]);
    RecordedCursorIsForeign(t, row);
    SealKeeps(t, env, agent, now, scan);
    RecordedCursorIsNeverExplained(t, Sealed(t, env, agent, now, scan), row);
  }

  // ------------------------------------------------------- whole runs

  ghost predicate Accounted(t: Tables, clock: int) {
    Inv(t) && Timed(t, clock) && Covered(t)
  }

  lemma EmptyIsAccounted(clock: int)
    ensures Accounted(EMPTY, clock)
  {
  }

  lemma EvaluationIsCoveredExactly(t: Tables, step: Step)
    requires step.Evaluate? && Inv(t) && NoneAhead(t) && Covered(t) && Legal(t, step)
    ensures Covered(Apply(t, step)) <==> !Conflicts(t, step)
  {
    if !CommitsDue(t, step) {
      UncommittedIsIdle(t, step);
    } else {
      var Evaluate(row, now, decision, _, _) := step;
      CommittedShape(t, step);
      if CursorRecorded(t, row) {
        EvaluateUncovers(t, row, now, decision.value, Apply(t, step));
      } else {
        var a, e := t.activations[row], decision.value;
        forall v | IsInstant(a.cron, v) && a.next <= v < e.next
          ensures if e.latest.Some? then v <= e.latest.value else v < now - TRIGGER_LATENESS
        {
          PassedOver(a.cron, a.next, a.until, now, e, v);
        }
        EvaluateCovers(t, row, now, e, Apply(t, step));
      }
    }
  }

  lemma SealIsCoveredExactly(t: Tables, clock: int, step: Step)
    requires step.Seal? && Inv(t) && Timed(t, clock) && Covered(t) && Legal(t, step) && InOrder(clock, step)
    ensures Covered(Apply(t, step)) <==> !Conflicts(t, step)
  {
    var Seal(env, agent, at, scan) := step;
    if Conflicts(t, step) {
      var row :| Sealable(t.activations, row, env, agent) && CursorRecorded(t, row);
      SealUncovers(t, env, agent, at, scan, row);
    } else {
      SealCovers(t, clock, env, agent, at, scan);
    }
  }

  /** A step keeps the account exactly when it does not conflict, which can be
      told before it. */
  lemma StepIsCoveredExactly(t: Tables, clock: int, step: Step)
    requires Accounted(t, clock) && Legal(t, step) && InOrder(clock, step)
    ensures Covered(Apply(t, step)) <==> !Conflicts(t, step)
  {
    match step
    case Promote(env, cutover, ds) =>
      if Outcome(t, step).Some? {
        PromoteCovers(t, env, cutover, ds);
      }
    case Seal(_, _, _, _) => SealIsCoveredExactly(t, clock, step);
    case Evaluate(_, _, _, _, _) => EvaluationIsCoveredExactly(t, step);
  }

  /** In every state of the run every passed instant is explained. */
  ghost predicate AlwaysCovered(t: Tables, steps: seq<Step>)
    decreases |steps|
  {
    Covered(t) && (steps != [] ==> AlwaysCovered(Apply(t, steps[0]), steps[1..]))
  }

  ghost predicate NeverConflicts(t: Tables, steps: seq<Step>)
    decreases |steps|
  {
    steps != [] ==> !Conflicts(t, steps[0]) && NeverConflicts(Apply(t, steps[0]), steps[1..])
  }

  /** Over every run with non-decreasing readings, the tables account for every
      passed instant throughout exactly when no step conflicts. */
  lemma {:induction false} AccountIsKeptExactly(t: Tables, clock: int, steps: seq<Step>)
    requires Accounted(t, clock) && OrderedRun(t, steps, clock)
    ensures AlwaysCovered(t, steps) <==> NeverConflicts(t, steps)
    decreases |steps|
  {
    if steps != [] {
      var step, t' := steps[0], Apply(t, steps[0]);
      StepIsCoveredExactly(t, clock, step);
      if Conflicts(t, step) {
        assert !AlwaysCovered(t', steps[1..]);
      } else {
        StepKeeps(t, step);
        TimedStep(t, clock, step);
        AccountIsKeptExactly(t', Reading(step), steps[1..]);
      }
    }
  }

  /** So at the end of a run without conflicts every passed instant is explained. */
  lemma {:induction false} EveryInstantIsAccountedFor(t: Tables, clock: int, steps: seq<Step>)
    requires Accounted(t, clock) && OrderedRun(t, steps, clock) && NeverConflicts(t, steps)
    ensures Covered(Run(t, steps))
    decreases |steps|
  {
    if steps != [] {
      StepIsCoveredExactly(t, clock, steps[0]);
      StepKeeps(t, steps[0]);
      TimedStep(t, clock, steps[0]);
      EveryInstantIsAccountedFor(Apply(t, steps[0]), Reading(steps[0]), steps[1..]);
    }
  }
}
