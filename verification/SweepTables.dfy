/** A sweep over the trigger tables: what it leaves due. */
module SweepTables {
  import opened Wrappers
  import opened Cron
  import opened TriggerEvaluation
  import opened Scheduler
  import opened SchedulerRuns
  import opened SchedulerIntervals
  import opened Sweep

  /** The rows the reconciliation query selects at a reading. */
  function DueRows(t: Tables, now: int): set<Row> {
    set row | row in t.activations && IsDue(t.activations[row], now)
  }

  /** An evaluation that commits leaves its row not due at its own reading,
      whatever it decided, and nothing later makes the row due at it again. */
  lemma EvaluatedIsNotDue(t: Tables, step: Step, rest: seq<Step>)
    requires Inv(t) && Legal(t, step) && LegalRun(Apply(t, step), rest)
    requires step.Evaluate? && step.row in t.activations && Outcome(t, step).Some?
    ensures var end := Run(Apply(t, step), rest);
      step.row in end.activations && !IsDue(end.activations[step.row], step.now)
  {
    StepKeeps(t, step);
    CursorIsPastReading(t, step, Apply(t, step));
    RunKeeps(Apply(t, step), rest);
    assert RowLater(Apply(t, step).activations[step.row], Run(Apply(t, step), rest).activations[step.row]);
  }

  /** After the evaluation the cursor lies after the reading or at the end. */
  lemma CursorIsPastReading(t: Tables, step: Step, t': Tables)
    requires Inv(t) && Legal(t, step) && step.Evaluate? && step.row in t.activations && Outcome(t, step) == Some(t')
    ensures step.row in t'.activations && t'.activations[step.row].until == t.activations[step.row].until
    ensures var a' := t'.activations[step.row]; a'.next > step.now || (a'.until.Some? && a'.until.value <= a'.next)
  {
    var a := t.activations[step.row];
    if a.until.Some? && a.until.value <= step.now {
      EvaluationPassesEnd(t, step, step.row);
    }
  }

  /** The inputs of one attempt: its clock reading and what it meets. */
  datatype Call = Call(now: int, routeActive: bool, attempt: Attempt)

  /** Every row evaluated so far by a call that committed is not due at that
      call's reading. */
  ghost predicate Settled(rows: map<Row, Activation>, swept: seq<Row>, calls: seq<Call>, committed: seq<bool>) {
    |committed| <= |swept| && |committed| <= |calls| &&
    forall i :: 0 <= i < |committed| && committed[i] ==> swept[i] in rows && !IsDue(rows[swept[i]], calls[i].now)
  }

  lemma SettledLater(t: Tables, t': Tables, swept: seq<Row>, calls: seq<Call>, committed: seq<bool>)
    requires Extends(t, t') && Settled(t.activations, swept, calls, committed)
    ensures Settled(t'.activations, swept, calls, committed)
  {
    forall i | 0 <= i < |committed| && committed[i]
      ensures swept[i] in t'.activations && !IsDue(t'.activations[swept[i]], calls[i].now)
    {
      assert RowLater(t.activations[swept[i]], t'.activations[swept[i]]);
    }
  }

  lemma AttemptSettles(t: Tables, step: Step)
    requires Inv(t) && Legal(t, step) && step.Evaluate?
    ensures Inv(Apply(t, step)) && Extends(t, Apply(t, step))
    ensures Outcome(t, step).Some? && step.row in t.activations ==>
      step.row in Apply(t, step).activations && !IsDue(Apply(t, step).activations[step.row], step.now)
  {
    StepKeeps(t, step);
    if Outcome(t, step).Some? && step.row in t.activations {
      EvaluatedIsNotDue(t, step, []);
    }
  }

  /** One attempt of the sweep on the store. */
  method AttemptRow(store: TriggerStore, row: Row, call: Call) returns (ok: bool)
    requires Inv(store.Current()) && row in store.activations
    modifies store
    ensures Inv(store.Current()) && Extends(old(store.Current()), store.Current())
    ensures ok ==> row in store.activations && !IsDue(store.activations[row], call.now)
  {
    ghost var t := store.Current();
    ghost var decision;
    ok, decision := store.EvaluateTrigger(row.env, row.id, call.now, call.routeActive, call.attempt);
    if row.env != NIL && row.id != NIL {
      AttemptSettles(t, Evaluate(row, call.now, decision, call.routeActive, call.attempt));
    }
  }

  lemma SettledExtends(rows: map<Row, Activation>, swept: seq<Row>, calls: seq<Call>, committed: seq<bool>, ok: bool)
    requires Settled(rows, swept, calls, committed) && |committed| < |swept| && |committed| < |calls|
    requires ok ==> swept[|committed|] in rows && !IsDue(rows[swept[|committed|]], calls[|committed|].now)
    ensures Settled(rows, swept, calls, committed + [ok])
  {
  }

  /** Attempts the rows of a sweep in order on the store; an attempt that fails is
      passed over. Every row whose attempt commits ends not due at the reading of
      that attempt. */
  method EvaluateAll(store: TriggerStore, swept: seq<Row>, calls: seq<Call>) returns (committed: seq<bool>)
    requires Inv(store.Current()) && |calls| == |swept| && forall row :: row in swept ==> row in store.activations
    modifies store
    ensures Inv(store.Current()) && Extends(old(store.Current()), store.Current())
    ensures |committed| == |swept| && Settled(store.activations, swept, calls, committed)
  {
    committed := [];
    for i := 0 to |swept|
      invariant |committed| == i && Inv(store.Current()) && Extends(old(store.Current()), store.Current())
      invariant Settled(store.activations, swept, calls, committed)
    {
      ghost var t := store.Current();
      assert swept[i] in swept;
      var ok := AttemptRow(store, swept[i], calls[i]);
      SettledLater(t, store.Current(), swept, calls, committed);
      ExtendsTransitive(old(store.Current()), t, store.Current());
      SettledExtends(store.activations, swept, calls, committed, ok);
      committed := committed + [ok];
    }
  }

  /** A completed sweep whose attempts all commit leaves no row of its due set due
      at the reading of the row's own attempt. */
  lemma CompletedSweepSettles(t: Tables, now: int, calls: seq<Call>, committed: seq<bool>, rows: map<Row, Activation>, row: Row)
    requires var swept := Ascending(DueRows(t, now), ZERO);
      && |committed| == |swept| && Settled(rows, swept, calls, committed) && forall i :: 0 <= i < |committed| ==> committed[i]
    requires row in DueRows(t, now) && Less(ZERO, row)
    ensures exists i :: SettledBy(rows, Ascending(DueRows(t, now), ZERO), calls, row, i)
  {
    AscendingIsExact(DueRows(t, now), ZERO);
    var i :| 0 <= i < |committed| && Ascending(DueRows(t, now), ZERO)[i] == row;
    assert committed[i] && SettledBy(rows, Ascending(DueRows(t, now), ZERO), calls, row, i);
  }

  /** The i-th attempt of the sweep is the row's, and the row is not due at its reading. */
  ghost predicate SettledBy(rows: map<Row, Activation>, swept: seq<Row>, calls: seq<Call>, row: Row, i: int) {
    0 <= i < |swept| && i < |calls| && swept[i] == row && row in rows && !IsDue(rows[row], calls[i].now)
  }
}
