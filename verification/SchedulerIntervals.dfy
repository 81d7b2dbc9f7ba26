/** Intervals and recorded instants over every run whose clock readings never go
    back: the intervals of one trigger are disjoint, and inside an interval an
    instant is recorded only behind the cursor or at the very start the cursor
    still stands on. */
module SchedulerIntervals {
  import opened Wrappers
  import opened Cron
  import opened TriggerEvaluation
  import opened Scheduler
  import opened SchedulerRuns

  function Reading(step: Step): int {
    match step
    case Promote(_, cutover, _) => cutover
    case Evaluate(_, now, _, _, _) => now
    case Seal(_, _, at, _) => at
  }

  predicate InOrder(clock: int, step: Step) {
    clock <= Reading(step)
  }

  ghost predicate OrderedRun(t: Tables, steps: seq<Step>, clock: int)
    decreases |steps|
  {
    steps != [] ==>
      && Legal(t, steps[0]) && InOrder(clock, steps[0])
      && OrderedRun(Apply(t, steps[0]), steps[1..], Reading(steps[0]))
  }

  predicate SameTrigger(row: Row, a: Activation, row': Row, a': Activation) {
    row.env == row'.env && a.agent == a'.agent && a.trigger == a'.trigger
  }

  predicate Before(a: Activation, a': Activation) {
    a.until.Some? && a.until.value <= a'.from
  }

  ghost predicate Disjoint(rows: map<Row, Activation>) {
    forall row, row' :: row in rows && row' in rows && row != row' && SameTrigger(row, rows[row], row', rows[row']) ==>
      Before(rows[row], rows[row']) || Before(rows[row'], rows[row])
  }

  ghost predicate RowsPast(rows: map<Row, Activation>, clock: int) {
    forall row :: row in rows ==> rows[row].from <= clock && (rows[row].until.Some? ==> rows[row].until.value <= clock)
  }

  /** Every occurrence was recorded in the past. */
  ghost predicate RecordedPast(t: Tables, clock: int) {
    forall k :: k in t.occurrences ==> t.occurrences[k].evaluatedAt <= clock
  }

  predicate InInterval(a: Activation, at: int) {
    a.from <= at && (a.until.Some? ==> at < a.until.value)
  }

  /** An instant of the activation that its cursor has passed. */
  ghost predicate Passed(a: Activation, v: int) {
    IsInstant(a.cron, v) && InInterval(a, v) && v < a.next
  }

  /** An occurrence of the trigger inside the interval lies behind the cursor, or
      is the start of the interval on which the cursor still stands. */
  predicate Behind(row: Row, a: Activation, k: Instant) {
    k == Key(row, a, k.at) && InInterval(a, k.at) ==> k.at < a.next || k.at == a.next == a.from
  }

  ghost predicate NoneAhead(t: Tables) {
    forall row, k :: row in t.activations && k in t.occurrences ==> Behind(row, t.activations[row], k)
  }

  ghost predicate Timed(t: Tables, clock: int) {
    Disjoint(t.activations) && RowsPast(t.activations, clock) && RecordedPast(t, clock) && NoneAhead(t)
  }

  // ------------------------------------------- evaluation and sealing

  /** The tables keep their intervals. */
  ghost predicate SameIntervals(rows: map<Row, Activation>, rows': map<Row, Activation>) {
    forall row :: row in rows' ==>
      && row in rows && rows'[row].agent == rows[row].agent && rows'[row].trigger == rows[row].trigger
      && rows'[row].from == rows[row].from && rows'[row].until == rows[row].until
  }

  lemma IntervalsTimed(rows: map<Row, Activation>, rows': map<Row, Activation>, clock: int, now: int)
    requires SameIntervals(rows, rows') && Disjoint(rows) && RowsPast(rows, clock) && clock <= now
    ensures Disjoint(rows') && RowsPast(rows', now)
  {
    forall row, row' | row in rows' && row' in rows' && row != row' && SameTrigger(row, rows'[row], row', rows'[row'])
      ensures Before(rows'[row], rows'[row']) || Before(rows'[row'], rows'[row])
    {
      assert SameTrigger(row, rows[row], row', rows[row']);
    }
  }

  /** A new occurrence is recorded now, inside the interval of its row and
      behind the row's new cursor. */
  ghost predicate RecordedNow(t: Tables, t': Tables, now: int) {
    forall k :: k in t'.occurrences && k !in t.occurrences ==>
      && t'.occurrences[k].evaluatedAt <= now
      && RecordedFor(t', Row(k.env, t'.occurrences[k].activation), k)
  }

  ghost predicate RecordedFor(t: Tables, row: Row, k: Instant) {
    row in t.activations && k == Key(row, t.activations[row], k.at) && InInterval(t.activations[row], k.at)
    && k.at < t.activations[row].next
  }

  lemma NewIsBehind(t: Tables, k: Instant, owner: Row, row: Row)
    requires Disjoint(t.activations) && RecordedFor(t, owner, k) && row in t.activations
    ensures Behind(row, t.activations[row], k)
  {
    if k == Key(row, t.activations[row], k.at) {
      assert SameTrigger(row, t.activations[row], owner, t.activations[owner]);
    }
  }

  lemma StepNoneAhead(t: Tables, t': Tables, now: int)
    requires NoneAhead(t) && Disjoint(t'.activations) && Extends(t, t') && SameIntervals(t.activations, t'.activations)
    requires RecordedNow(t, t', now)
    ensures NoneAhead(t')
  {
    forall row, k | row in t'.activations && k in t'.occurrences
      ensures Behind(row, t'.activations[row], k)
    {
      if k in t.occurrences {
        assert Behind(row, t.activations[row], k);
        assert RowLater(t.activations[row], t'.activations[row]);
      } else {
        NewIsBehind(t', k, Row(k.env, t'.occurrences[k].activation), row);
      }
    }
  }

  lemma StepTimed(t: Tables, t': Tables, clock: int, now: int)
    requires Timed(t, clock) && clock <= now && Extends(t, t') && SameIntervals(t.activations, t'.activations)
    requires RecordedNow(t, t', now)
    ensures Timed(t', now)
  {
    IntervalsTimed(t.activations, t'.activations, clock, now);
    StepNoneAhead(t, t', now);
    forall k | k in t'.occurrences
      ensures t'.occurrences[k].evaluatedAt <= now
    {
      assert k in t.occurrences ==> t'.occurrences[k] == t.occurrences[k];
    }
  }

  lemma EvaluateTimed(t: Tables, clock: int, row: Row, now: int, e: Evaluation, t': Tables)
    requires Core(t) && Timed(t, clock) && clock <= now
    requires row in t.activations && Sound(t.activations[row], now, e) && Commits(t, row, now, e, t')
    ensures Timed(t', now)
  {
    EvaluateExtends(t, row, now, e, t');
    EvaluationRecordsNow(t, row, now, e, t');
    StepTimed(t, t', clock, now);
  }

  lemma EvaluationRecordsNow(t: Tables, row: Row, now: int, e: Evaluation, t': Tables)
    requires RowsOk(t.activations) && row in t.activations && Sound(t.activations[row], now, e) && Commits(t, row, now, e, t')
    ensures RecordedNow(t, t', now)
  {
    forall k | k in t'.occurrences && k !in t.occurrences
      ensures t'.occurrences[k].evaluatedAt <= now && RecordedFor(t', Row(k.env, t'.occurrences[k].activation), k)
    {
      assert Adds(t, row, now, e, t', k);
      assert RowOk(t.activations[row]);
    }
  }

  lemma SealTimed(t: Tables, clock: int, env: Id, agent: Id, now: int, scan: seq<Id>)
    requires Core(t) && Timed(t, clock) && clock <= now
    ensures Timed(Sealed(t, env, agent, now, scan), now)
  {
    SealKeeps(t, env, agent, now, scan);
    SealRecordsNow(t, env, agent, now, scan);
    StepTimed(t, Sealed(t, env, agent, now, scan), clock, now);
  }

  lemma SealRecordsNow(t: Tables, env: Id, agent: Id, now: int, scan: seq<Id>)
    requires RowsOk(t.activations)
    ensures RecordedNow(t, Sealed(t, env, agent, now, scan), now)
    ensures SameIntervals(t.activations, Sealed(t, env, agent, now, scan).activations)
  {
    MissSealedShape(t, env, agent, now, scan);
    assert forall row :: row in t.activations ==> RowOk(t.activations[row]);
  }

  // -------------------------------------------------------- promotion

  ghost predicate IsRowOf(row: Row, a: Activation, env: Id, cutover: int, d: Declaration) {
    row == Row(env, d.id) && d.cron(cutover - NANOSECOND).Some? && a == Opened(d, cutover, d.cron(cutover - NANOSECOND).value)
  }

  ghost predicate NewAreDeclared(rows: map<Row, Activation>, rows': map<Row, Activation>, env: Id, cutover: int, ds: seq<Declaration>) {
    forall row :: row in rows' && row !in rows ==> exists d :: d in ds && IsRowOf(row, rows'[row], env, cutover, d)
  }

  ghost predicate DeclaredAreOpen(rows: map<Row, Activation>, env: Id, cutover: int, ds: seq<Declaration>) {
    forall d :: d in ds ==> Row(env, d.id) in rows && IsRowOf(Row(env, d.id), rows[Row(env, d.id)], env, cutover, d)
  }

  /** The insert keeps the rows there are and adds exactly those declared. */
  ghost predicate Inserted(rows: map<Row, Activation>, rows': map<Row, Activation>, env: Id, cutover: int, ds: seq<Declaration>) {
    && (forall row :: row in rows ==> row in rows' && rows'[row] == rows[row])
    && NewAreDeclared(rows, rows', env, cutover, ds)
    && DeclaredAreOpen(rows', env, cutover, ds)
  }

  lemma {:induction false} InsertAllShape(rows: map<Row, Activation>, env: Id, cutover: int, ds: seq<Declaration>)
    requires InsertAll(rows, env, cutover, ds).Some?
    ensures Inserted(rows, InsertAll(rows, env, cutover, ds).value, env, cutover, ds)
  {
    if ds != [] {
      var front, d := ds[..|ds| - 1], ds[|ds| - 1];
      InsertAllShape(rows, env, cutover, front);
      assert ds == front + [d];
      InsertShape(rows, InsertAll(rows, env, cutover, front).value, InsertAll(rows, env, cutover, ds).value, env, cutover, front, d);
    }
  }

  lemma InsertShape(rows: map<Row, Activation>, rows': map<Row, Activation>, rows'': map<Row, Activation>, env: Id, cutover: int,
                    ds: seq<Declaration>, d: Declaration)
    requires Inserted(rows, rows', env, cutover, ds) && Insert(rows', env, cutover, d) == Some(rows'')
    ensures Inserted(rows, rows'', env, cutover, ds + [d])
  {
    forall row | row in rows'' && row !in rows
      ensures exists d' :: d' in ds + [d] && IsRowOf(row, rows''[row], env, cutover, d')
    {
      if row == Row(env, d.id) {
        assert d in ds + [d] && IsRowOf(row, rows''[row], env, cutover, d);
      } else {
        var d' :| d' in ds && IsRowOf(row, rows'[row], env, cutover, d');
        assert d' in ds + [d] && IsRowOf(row, rows''[row], env, cutover, d');
      }
    }
  }

  lemma {:induction false} InsertAllDisjoint(rows: map<Row, Activation>, env: Id, cutover: int, ds: seq<Declaration>)
    requires Disjoint(rows) && RowsPast(rows, cutover) && InsertAll(rows, env, cutover, ds).Some?
    ensures Disjoint(InsertAll(rows, env, cutover, ds).value) && RowsPast(InsertAll(rows, env, cutover, ds).value, cutover)
  {
    if ds != [] {
      InsertAllDisjoint(rows, env, cutover, ds[..|ds| - 1]);
      InsertDisjoint(InsertAll(rows, env, cutover, ds[..|ds| - 1]).value, env, cutover, ds[|ds| - 1]);
    }
  }

  lemma InsertDisjoint(rows: map<Row, Activation>, env: Id, cutover: int, d: Declaration)
    requires Disjoint(rows) && RowsPast(rows, cutover) && Insert(rows, env, cutover, d).Some?
    ensures Disjoint(Insert(rows, env, cutover, d).value)
  {
    var rows' := Insert(rows, env, cutover, d).value;
    var added := Row(env, d.id);
    forall row | row in rows && SameTrigger(row, rows[row], added, rows'[added])
      ensures Before(rows[row], rows'[added])
    {
      assert !IsOpen(rows, row, env);
    }
  }

  lemma CloseOpenDisjoint(rows: map<Row, Activation>, clock: int, env: Id, cutover: int)
    requires Disjoint(rows) && RowsPast(rows, clock) && clock <= cutover && CloseOpen(rows, env, cutover).Some?
    ensures Disjoint(CloseOpen(rows, env, cutover).value) && RowsPast(CloseOpen(rows, env, cutover).value, cutover)
  {
    var rows' := CloseOpen(rows, env, cutover).value;
    forall row, row' | row in rows' && row' in rows' && row != row' && SameTrigger(row, rows'[row], row', rows'[row'])
      ensures Before(rows'[row], rows'[row']) || Before(rows'[row'], rows'[row])
    {
      assert SameTrigger(row, rows[row], row', rows[row']);
    }
  }

  /** What a promotion does to the rows: each old row keeps its cursor and is
      closed at the cutover if it was open; each new one is declared. */
  ghost predicate Reopened(rows: map<Row, Activation>, rows': map<Row, Activation>, env: Id, cutover: int, ds: seq<Declaration>) {
    && (forall row :: row in rows ==>
          && row in rows'
          && rows'[row] == if IsOpen(rows, row, env) then rows[row].(until := Some(cutover)) else rows[row])
    && NewAreDeclared(rows, rows', env, cutover, ds)
    && DeclaredAreOpen(rows', env, cutover, ds)
  }

  lemma PromotionShape(t: Tables, env: Id, cutover: int, ds: seq<Declaration>)
    requires Promoted(t, env, cutover, ds).Some?
    ensures var t' := Promoted(t, env, cutover, ds).value;
      && Reopened(t.activations, t'.activations, env, cutover, ds)
      && t' == t.(activations := t'.activations)
  {
    InsertAllShape(CloseOpen(t.activations, env, cutover).value, env, cutover, ds);
  }

  /** What a promotion does: it closes the open rows of the Environment at the
      cutover and touches no other row, and opens each declared trigger there with
      the first instant of its schedule from the cutover on. */
  lemma PromotionChangesExactly(t: Tables, env: Id, cutover: int, ds: seq<Declaration>, t': Tables)
    requires Promoted(t, env, cutover, ds) == Some(t')
    ensures t'.occurrences == t.occurrences && t'.sessions == t.sessions
    ensures forall row :: row in t.activations ==> row in t'.activations && ClosedAt(row, t.activations[row], t'.activations[row], env, cutover)
    ensures forall row :: row in t'.activations && row !in t.activations ==> exists d :: d in ds && row == Row(env, d.id)
    ensures forall d :: d in ds ==> Row(env, d.id) in t'.activations && OpenedAt(d, t'.activations[Row(env, d.id)], cutover)
  {
    PromotionShape(t, env, cutover, ds);
    DeclaredMeansOpened(t'.activations, env, cutover, ds);
    NewMeansDeclared(t.activations, t'.activations, env, cutover, ds);
  }

  lemma DeclaredMeansOpened(rows: map<Row, Activation>, env: Id, cutover: int, ds: seq<Declaration>)
    requires DeclaredAreOpen(rows, env, cutover, ds)
    ensures forall d :: d in ds ==> Row(env, d.id) in rows && OpenedAt(d, rows[Row(env, d.id)], cutover)
  {
    forall d | d in ds
      ensures Row(env, d.id) in rows && OpenedAt(d, rows[Row(env, d.id)], cutover)
    {
      assert IsRowOf(Row(env, d.id), rows[Row(env, d.id)], env, cutover, d);
    }
  }

  lemma NewMeansDeclared(rows: map<Row, Activation>, rows': map<Row, Activation>, env: Id, cutover: int, ds: seq<Declaration>)
    requires NewAreDeclared(rows, rows', env, cutover, ds)
    ensures forall row :: row in rows' && row !in rows ==> exists d :: d in ds && row == Row(env, d.id)
  {
    forall row | row in rows' && row !in rows
      ensures exists d :: d in ds && row == Row(env, d.id)
    {
      var d :| d in ds && IsRowOf(row, rows'[row], env, cutover, d);
    }
  }

  /** An open row of the Environment ends at the cutover; any other is as it was. */
  ghost predicate ClosedAt(row: Row, a: Activation, a': Activation, env: Id, cutover: int) {
    a' == if row.env == env && a.until.None? then a.(until := Some(cutover)) else a
  }

  ghost predicate OpenedAt(d: Declaration, a: Activation, cutover: int) {
    && d.cron(cutover - NANOSECOND).Some?
    && a == Activation(d.agent, d.trigger, d.cron, d.slack, cutover, None, d.cron(cutover - NANOSECOND).value)
  }

  /** The declarations can be opened beside the rows: every schedule answers, every
      row is new, and no id and no trigger is declared twice. */
  ghost predicate Declarable(rows: map<Row, Activation>, env: Id, cutover: int, ds: seq<Declaration>) {
    && (forall i :: 0 <= i < |ds| ==> ds[i].cron(cutover - NANOSECOND).Some? && Row(env, ds[i].id) !in rows)
    && (forall i, j :: 0 <= i < j < |ds| ==> ds[i].id != ds[j].id && !(ds[i].agent == ds[j].agent && ds[i].trigger == ds[j].trigger))
  }

  ghost predicate NoneOpen(rows: map<Row, Activation>, env: Id) {
    forall row :: row in rows && row.env == env ==> rows[row].until.Some?
  }

  lemma {:induction false} InsertAllExactly(rows: map<Row, Activation>, env: Id, cutover: int, ds: seq<Declaration>)
    requires NoneOpen(rows, env)
    ensures InsertAll(rows, env, cutover, ds).Some? <==> Declarable(rows, env, cutover, ds)
  {
    if ds != [] {
      var front, d := ds[..|ds| - 1], ds[|ds| - 1];
      InsertAllExactly(rows, env, cutover, front);
      assert ds == front + [d];
      if Declarable(rows, env, cutover, ds) {
        assert forall i :: 0 <= i < |front| ==> front[i] == ds[i];
        assert Declarable(rows, env, cutover, front);
      }
      if InsertAll(rows, env, cutover, front).Some? {
        InsertAllShape(rows, env, cutover, front);
        InsertExactly(rows, InsertAll(rows, env, cutover, front).value, env, cutover, front, d);
      }
    }
  }

  lemma InsertExactly(rows: map<Row, Activation>, rows': map<Row, Activation>, env: Id, cutover: int, ds: seq<Declaration>, d: Declaration)
    requires NoneOpen(rows, env) && Inserted(rows, rows', env, cutover, ds) && Declarable(rows, env, cutover, ds)
    ensures Insert(rows', env, cutover, d).Some? <==> Declarable(rows, env, cutover, ds + [d])
  {
    DeclarableExtends(rows, env, cutover, ds, d);
    if Insert(rows', env, cutover, d).Some? {
      InsertNeedsNew(rows, rows', env, cutover, ds, d);
    }
    if Addable(rows, env, cutover, ds, d) {
      NewIsInserted(rows, rows', env, cutover, ds, d);
    }
  }

  /** A declaration that can be added to the others. */
  ghost predicate Addable(rows: map<Row, Activation>, env: Id, cutover: int, ds: seq<Declaration>, d: Declaration) {
    && d.cron(cutover - NANOSECOND).Some? && Row(env, d.id) !in rows
    && forall i :: 0 <= i < |ds| ==> ds[i].id != d.id && !(ds[i].agent == d.agent && ds[i].trigger == d.trigger)
  }

  lemma DeclarableExtends(rows: map<Row, Activation>, env: Id, cutover: int, ds: seq<Declaration>, d: Declaration)
    requires Declarable(rows, env, cutover, ds)
    ensures Declarable(rows, env, cutover, ds + [d]) <==> Addable(rows, env, cutover, ds, d)
  {
    var all := ds + [d];
    assert all[|ds|] == d && forall i :: 0 <= i < |ds| ==> all[i] == ds[i];
  }

  lemma InsertNeedsNew(rows: map<Row, Activation>, rows': map<Row, Activation>, env: Id, cutover: int, ds: seq<Declaration>, d: Declaration)
    requires (forall row :: row in rows ==> row in rows') && DeclaredAreOpen(rows', env, cutover, ds)
    requires Insert(rows', env, cutover, d).Some?
    ensures Addable(rows, env, cutover, ds, d)
  {
    forall i | 0 <= i < |ds|
      ensures ds[i].id != d.id && !(ds[i].agent == d.agent && ds[i].trigger == d.trigger)
    {
      OpenedIsThere(rows', env, cutover, ds, ds[i]);
    }
  }

  lemma NewIsInserted(rows: map<Row, Activation>, rows': map<Row, Activation>, env: Id, cutover: int, ds: seq<Declaration>, d: Declaration)
    requires NoneOpen(rows, env) && NewAreDeclared(rows, rows', env, cutover, ds)
    requires (forall row :: row in rows ==> row in rows' && rows'[row] == rows[row]) && Addable(rows, env, cutover, ds, d)
    ensures Insert(rows', env, cutover, d).Some?
  {
    forall row | row in rows' && row !in rows
      ensures row != Row(env, d.id) && !(rows'[row].agent == d.agent && rows'[row].trigger == d.trigger)
    {
      var d' :| d' in ds && IsRowOf(row, rows'[row], env, cutover, d');
      var i :| 0 <= i < |ds| && ds[i] == d';
      assert ds[i].id != d.id;
    }
  }

  lemma OpenedIsThere(rows: map<Row, Activation>, env: Id, cutover: int, ds: seq<Declaration>, d: Declaration)
    requires d in ds && DeclaredAreOpen(rows, env, cutover, ds)
    ensures Row(env, d.id) in rows && IsOpen(rows, Row(env, d.id), env)
    ensures rows[Row(env, d.id)].agent == d.agent && rows[Row(env, d.id)].trigger == d.trigger
  {
  }

  /** A promotion goes through exactly when no open row of the Environment starts
      after the cutover and the declarations can be opened. */
  lemma PromotionGoesThroughExactly(t: Tables, env: Id, cutover: int, ds: seq<Declaration>)
    ensures Promoted(t, env, cutover, ds).Some? <==>
      && (forall row :: row in t.activations && row.env == env && t.activations[row].until.None? ==> t.activations[row].from <= cutover)
      && Declarable(t.activations, env, cutover, ds)
  {
    var closed := CloseOpen(t.activations, env, cutover);
    if closed.Some? {
      assert NoneOpen(closed.value, env);
      InsertAllExactly(closed.value, env, cutover, ds);
      assert closed.value.Keys == t.activations.Keys;
    }
  }

  lemma OpenedIsBehind(row: Row, a: Activation, env: Id, cutover: int, d: Declaration, k: Instant)
    requires Lawful(d.cron) && IsRowOf(row, a, env, cutover, d) && k.at <= cutover
    ensures Behind(row, a, k)
  {
    assert a.next > cutover - NANOSECOND;
  }

  lemma PromoteNoneAhead(t: Tables, clock: int, env: Id, cutover: int, ds: seq<Declaration>)
    requires Core(t) && Timed(t, clock) && clock <= cutover
    requires (forall d :: d in ds ==> Lawful(d.cron)) && Promoted(t, env, cutover, ds).Some?
    ensures NoneAhead(Promoted(t, env, cutover, ds).value)
  {
    PromotionShape(t, env, cutover, ds);
    var t' := Promoted(t, env, cutover, ds).value;
    forall row, k | row in t'.activations && k in t'.occurrences
      ensures Behind(row, t'.activations[row], k)
    {
      if row in t.activations {
        assert Behind(row, t.activations[row], k);
      } else {
        var d :| d in ds && IsRowOf(row, t'.activations[row], env, cutover, d);
        assert OccurrenceOk(t, k) && k.at <= cutover;
        OpenedIsBehind(row, t'.activations[row], env, cutover, d, k);
      }
    }
  }

  lemma PromoteTimed(t: Tables, clock: int, env: Id, cutover: int, ds: seq<Declaration>)
    requires Core(t) && Timed(t, clock) && clock <= cutover
    requires (forall d :: d in ds ==> Lawful(d.cron)) && Promoted(t, env, cutover, ds).Some?
    ensures Timed(Promoted(t, env, cutover, ds).value, cutover)
  {
    CloseOpenDisjoint(t.activations, clock, env, cutover);
    InsertAllDisjoint(CloseOpen(t.activations, env, cutover).value, env, cutover, ds);
    PromoteNoneAhead(t, clock, env, cutover, ds);
  }

  lemma OpenedHasPassedNothing(row: Row, a: Activation, env: Id, cutover: int, d: Declaration, v: int)
    requires Lawful(d.cron) && IsRowOf(row, a, env, cutover, d)
    ensures !Passed(a, v)
  {
    NextIsLeastLaterInstant(d.cron, cutover - NANOSECOND);
  }

  // ------------------------------------------------------- whole runs

  /** The evaluation commits a decision that something is due. */
  ghost predicate CommitsDue(t: Tables, step: Step) {
    && step.Evaluate? && Outcome(t, step).Some? && step.row in t.activations
    && step.decision.Success? && step.decision.value.Due?
  }

  lemma CommittedShape(t: Tables, step: Step)
    requires Inv(t) && Legal(t, step) && CommitsDue(t, step)
    ensures Sound(t.activations[step.row], step.now, step.decision.value)
    ensures Commits(t, step.row, step.now, step.decision.value, Apply(t, step))
  {
    DecisionsAreSound(t.activations[step.row], step.now, step.decision.value);
    CommitShape(t, step.row, step.now, step.decision.value, step.routeActive, step.attempt);
  }

  lemma UncommittedIsIdle(t: Tables, step: Step)
    requires step.Evaluate? && !CommitsDue(t, step)
    ensures Apply(t, step) == t
  {
  }

  lemma TimedLater(t: Tables, clock: int, now: int)
    requires Timed(t, clock) && clock <= now
    ensures Timed(t, now)
  {
  }

  lemma TimedStep(t: Tables, clock: int, step: Step)
    requires Inv(t) && Timed(t, clock) && Legal(t, step) && InOrder(clock, step)
    ensures Timed(Apply(t, step), Reading(step))
  {
    match step
    case Promote(env, cutover, ds) =>
      if Outcome(t, step).Some? {
        PromoteTimed(t, clock, env, cutover, ds);
      } else {
        TimedLater(t, clock, cutover);
      }
    case Seal(env, agent, at, scan) => SealTimed(t, clock, env, agent, at, scan);
    case Evaluate(row, now, decision, _, _) =>
      if CommitsDue(t, step) {
        CommittedShape(t, step);
        EvaluateTimed(t, clock, row, now, decision.value, Apply(t, step));
      } else {
        UncommittedIsIdle(t, step);
        TimedLater(t, clock, now);
      }
  }

  /** Over every run with non-decreasing readings the intervals of one trigger
      stay disjoint and nothing is recorded ahead of a cursor. */
  lemma {:induction false} IntervalsStayDisjoint(t: Tables, clock: int, steps: seq<Step>)
    requires Inv(t) && Timed(t, clock) && OrderedRun(t, steps, clock)
    ensures Disjoint(Run(t, steps).activations) && NoneAhead(Run(t, steps))
    decreases |steps|
  {
    if steps != [] {
      StepKeeps(t, steps[0]);
      TimedStep(t, clock, steps[0]);
      IntervalsStayDisjoint(Apply(t, steps[0]), Reading(steps[0]), steps[1..]);
    }
  }
}
