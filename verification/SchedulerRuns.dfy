/** What every run of promotions, evaluations, sealings and rolled-back
    failures keeps. */
module SchedulerRuns {
  import opened Wrappers
  import Sets
  import opened Cron
  import opened TriggerEvaluation
  import opened Scheduler

  /** One transaction with its inputs. A rolled-back transaction is a step whose
      outcome is `None`: it leaves the tables as they were. */
  datatype Step =
    | Promote(env: Id, cutover: int, ds: seq<Declaration>)
    | Evaluate(row: Row, now: int, decision: Result<Evaluation, CronError>, routeActive: bool, attempt: Attempt)
    | Seal(env: Id, agent: Id, at: int, scan: seq<Id>)

  function Outcome(t: Tables, step: Step): Option<Tables> {
    match step
    case Promote(env, cutover, ds) => Promoted(t, env, cutover, ds)
    case Evaluate(row, now, decision, routeActive, attempt) => Evaluated(t, row, now, decision, routeActive, attempt)
    case Seal(env, agent, at, scan) => Some(Sealed(t, env, agent, at, scan))
  }

  function Apply(t: Tables, step: Step): Tables {
    match Outcome(t, step)
    case None => t
    case Some(t') => t'
  }

  /** The inputs are ones the surroundings can supply: clock readings lie on the
      microsecond grid, schedules are lawful, the decision is the evaluation of
      the stored row, and the bulk scan misses no row. */
  ghost predicate Legal(t: Tables, step: Step) {
    match step
    case Promote(_, cutover, ds) =>
      cutover % MICROSECOND == 0 && forall d :: d in ds ==> Lawful(d.cron)
    case Evaluate(row, now, decision, _, _) =>
      row in t.activations ==>
        var a := t.activations[row]; Meets(a.cron, a.next, a.until, now, decision)
    case Seal(env, agent, _, scan) => Covers(t, env, agent, scan)
  }

  ghost function Run(t: Tables, steps: seq<Step>): Tables
    decreases |steps|
  {
    if steps == [] then t else Run(Apply(t, steps[0]), steps[1..])
  }

  ghost predicate LegalRun(t: Tables, steps: seq<Step>)
    decreases |steps|
  {
    steps != [] ==> Legal(t, steps[0]) && LegalRun(Apply(t, steps[0]), steps[1..])
  }

  const EMPTY := Tables(map[], map[], map[])

  // ------------------------------------------------------ the state invariant

  /** The cursor is an instant of the schedule, or the interval is used up. */
  ghost predicate RowOk(a: Activation) {
    && a.from <= a.next
    && (a.until.Some? ==> a.from <= a.until.value && a.until.value % MICROSECOND == 0)
    && (IsInstant(a.cron, a.next) || (a.until.Some? && a.until.value <= a.next))
  }

  /** A recorded occurrence belongs to an activation of its trigger, is one of
      its instants, lies behind its cursor, was not recorded early, and was
      admitted or rejected only within the lateness. */
  ghost predicate OccurrenceOk(t: Tables, k: Instant)
    requires k in t.occurrences
  {
    var o := t.occurrences[k];
    var row := Row(k.env, o.activation);
    && row in t.activations
    && k == Key(row, t.activations[row], k.at)
    && IsInstant(t.activations[row].cron, k.at)
    && t.activations[row].from <= k.at < t.activations[row].next
    && k.at <= o.evaluatedAt
    && (!o.disposition.Missed? ==> o.evaluatedAt - k.at <= TRIGGER_LATENESS)
    && (o.disposition.Admitted? ==>
        && o.disposition.session in t.sessions && t.sessions[o.disposition.session] == k
        && !t.activations[row].slack.Waiting?)
  }

  /** Every scheduled Session has the one admitted occurrence it was started for. */
  ghost predicate SessionOk(t: Tables, session: Id)
    requires session in t.sessions
  {
    var k := t.sessions[session];
    k in t.occurrences && t.occurrences[k].disposition == Admitted(session)
  }

  ghost predicate RowsOk(rows: map<Row, Activation>) {
    forall row :: row in rows ==> RowOk(rows[row])
  }

  ghost predicate Core(t: Tables) {
    && RowsOk(t.activations)
    && (forall k :: k in t.occurrences ==> OccurrenceOk(t, k))
    && (forall s :: s in t.sessions ==> SessionOk(t, s))
  }

  ghost predicate AllLawful(rows: map<Row, Activation>) {
    forall row :: row in rows ==> Lawful(rows[row].cron)
  }

  ghost predicate Inv(t: Tables) {
    AllLawful(t.activations) && Core(t)
  }

  /** Rows are never dropped or re-identified, a closed interval keeps its end,
      and cursors only move forward. */
  ghost predicate RowLater(a: Activation, a': Activation) {
    && a'.agent == a.agent && a'.trigger == a.trigger && a'.cron == a.cron && a'.slack == a.slack && a'.from == a.from
    && (a.until.Some? ==> a'.until == a.until)
    && a.next <= a'.next
  }

  /** Nothing already recorded is changed or removed. */
  ghost predicate Extends(t: Tables, t': Tables) {
    && (forall k :: k in t.occurrences ==> k in t'.occurrences && t'.occurrences[k] == t.occurrences[k])
    && (forall s :: s in t.sessions ==> s in t'.sessions && t'.sessions[s] == t.sessions[s])
    && (forall row :: row in t.activations ==> row in t'.activations && RowLater(t.activations[row], t'.activations[row]))
  }

  lemma ExtendsTransitive(t: Tables, t': Tables, t'': Tables)
    requires Extends(t, t') && Extends(t', t'')
    ensures Extends(t, t'')
  {
  }

  // -------------------------------------------------------- evaluation keeps it

  /** What the invariant needs to know about a decision. */
  ghost predicate Sound(a: Activation, now: int, e: Evaluation) {
    && e.Due?
    && a.next < e.next && IsInstant(a.cron, e.next)
    && a.next <= now && IsInstant(a.cron, a.next) && (a.until.Some? ==> a.next < a.until.value)
    && (e.latest.Some? ==>
        && IsInstant(a.cron, e.latest.value)
        && a.next <= e.latest.value <= now && e.latest.value < e.next
        && now - e.latest.value <= TRIGGER_LATENESS
        && (a.until.Some? ==> e.latest.value < a.until.value))
    && (e.missed.Some? ==> e.missed.value == a.next && e.latest != e.missed)
    && (e.missed.None? ==> e.latest == Some(a.next))
  }

  lemma DecisionsAreSound(a: Activation, now: int, e: Evaluation)
    requires Lawful(a.cron) && RowOk(a) && e.Due? && Meets(a.cron, a.next, a.until, now, Success(e))
    ensures Sound(a, now, e)
  {
    EvaluationBounds(a.cron, a.next, a.until, now, e);
  }

  /** The tables `t'` a committed evaluation of `t` leaves, entry by entry. */
  ghost predicate Commits(t: Tables, row: Row, now: int, e: Evaluation, t': Tables)
    requires row in t.activations
  {
    var a := t.activations[row];
    && e.Due?
    && t'.activations == t.activations[row := a.(next := e.next)]
    && Key(row, a, a.next) in t'.occurrences
    && (e.latest.Some? ==> Key(row, a, e.latest.value) in t'.occurrences)
    && (forall k :: k in t.occurrences ==> k in t'.occurrences && t'.occurrences[k] == t.occurrences[k])
    && (forall k :: k in t'.occurrences && k !in t.occurrences ==> Adds(t, row, now, e, t', k))
    && (t'.sessions == t.sessions
        || exists s :: Starts(t, row, e, t', s))
  }

  /** The evaluation starts the Session for its latest instant. */
  ghost predicate Starts(t: Tables, row: Row, e: Evaluation, t': Tables, s: Id)
    requires row in t.activations && e.Due?
  {
    && s !in t.sessions && e.latest.Some?
    && var k := Key(row, t.activations[row], e.latest.value);
       && k !in t.occurrences && t'.sessions == t.sessions[s := k]
       && k in t'.occurrences && t'.occurrences[k].disposition == Admitted(s)
  }

  /** One occurrence an evaluation adds: the latest instant, admitted or
      rejected, or the cursor, missed. */
  ghost predicate Adds(t: Tables, row: Row, now: int, e: Evaluation, t': Tables, k: Instant)
    requires row in t.activations && e.Due? && k in t'.occurrences
  {
    var a := t.activations[row];
    var o := t'.occurrences[k];
    && o.activation == row.id && o.evaluatedAt == now && k == Key(row, a, k.at)
    && if e.latest == Some(k.at)
       then o.disposition.Rejected?
            || (o.disposition.Admitted? && !a.slack.Waiting?
                && o.disposition.session in t'.sessions && t'.sessions[o.disposition.session] == k)
       else k.at == a.next && o.disposition == Missed(if e.latest.None? then LatenessExceeded else Superseded)
  }

  lemma CommitShape(t: Tables, row: Row, now: int, e: Evaluation, routeActive: bool, attempt: Attempt)
    requires row in t.activations && Sound(t.activations[row], now, e)
    requires CommitEvaluation(t, row, now, e, routeActive, attempt).Some?
    ensures Commits(t, row, now, e, CommitEvaluation(t, row, now, e, routeActive, attempt).value)
  {
    var t' := CommitEvaluation(t, row, now, e, routeActive, attempt).value;
    if t'.sessions != t.sessions {
      assert Starts(t, row, e, t', attempt.session);
    }
    CommitKeepsRecords(t, row, now, e, routeActive, attempt);
    forall k | k in t'.occurrences && k !in t.occurrences
      ensures Adds(t, row, now, e, t', k)
    {
      CommitAdds(t, row, now, e, routeActive, attempt, k);
    }
  }

  lemma CommitKeepsRecords(t: Tables, row: Row, now: int, e: Evaluation, routeActive: bool, attempt: Attempt)
    requires row in t.activations && Sound(t.activations[row], now, e)
    requires CommitEvaluation(t, row, now, e, routeActive, attempt).Some?
    ensures var a, t' := t.activations[row], CommitEvaluation(t, row, now, e, routeActive, attempt).value;
      && Key(row, a, a.next) in t'.occurrences
      && (e.latest.Some? ==> Key(row, a, e.latest.value) in t'.occurrences)
      && (forall k :: k in t.occurrences ==> k in t'.occurrences && t'.occurrences[k] == t.occurrences[k])
  {
  }

  lemma CommitAdds(t: Tables, row: Row, now: int, e: Evaluation, routeActive: bool, attempt: Attempt, k: Instant)
    requires row in t.activations && Sound(t.activations[row], now, e)
    requires CommitEvaluation(t, row, now, e, routeActive, attempt).Some?
    requires k in CommitEvaluation(t, row, now, e, routeActive, attempt).value.occurrences && k !in t.occurrences
    ensures Adds(t, row, now, e, CommitEvaluation(t, row, now, e, routeActive, attempt).value, k)
  {
  }

  /** What a due evaluation whose latest instant is not recorded yet does with it,
      in terms of the trigger's Slack destination, the state of its route and the
      outcome of Session admission. */
  ghost predicate Disposes(t: Tables, row: Row, now: int, k: Instant, routeActive: bool, attempt: Attempt, r: Option<Tables>)
    requires row in t.activations
  {
    match t.activations[row].slack
    case Waiting => Rejects(t, row, now, k, SlackNotConnected, r)
    case Bound(_) =>
      if routeActive then DisposesAttempt(t, row, now, k, attempt, r) else Rejects(t, row, now, k, SlackChannelUnavailable, r)
    case NoChannel => DisposesAttempt(t, row, now, k, attempt, r)
  }

  ghost predicate Rejects(t: Tables, row: Row, now: int, k: Instant, reason: RejectReason, r: Option<Tables>) {
    r.Some? && k in r.value.occurrences && r.value.occurrences[k] == Occurrence(row.id, Rejected(reason), now)
    && r.value.sessions == t.sessions
  }

  ghost predicate DisposesAttempt(t: Tables, row: Row, now: int, k: Instant, attempt: Attempt, r: Option<Tables>) {
    match attempt
    case Fail => r.None?
    case Refuse(reason) => Rejects(t, row, now, k, reason, r)
    case Admit(session) =>
      if session in t.sessions then r.None?
      else
        && r.Some? && k in r.value.occurrences && r.value.occurrences[k] == Occurrence(row.id, Admitted(session), now)
        && r.value.sessions == t.sessions[session := k]
  }

  /** An unrecorded latest instant is disposed of exactly so; a recorded one, or
      none, starts nothing, asks nothing of admission and always commits. */
  lemma LatestIsDisposedOf(t: Tables, row: Row, now: int, e: Evaluation, routeActive: bool, attempt: Attempt)
    requires row in t.activations && Sound(t.activations[row], now, e)
    ensures var r := CommitEvaluation(t, row, now, e, routeActive, attempt);
      if e.latest.Some? && Key(row, t.activations[row], e.latest.value) !in t.occurrences
      then Disposes(t, row, now, Key(row, t.activations[row], e.latest.value), routeActive, attempt, r)
      else r.Some? && r.value.sessions == t.sessions
  {
  }

  lemma OccurrenceKept(t: Tables, t': Tables, k: Instant)
    requires Extends(t, t') && k in t.occurrences && OccurrenceOk(t, k)
    ensures OccurrenceOk(t', k)
  {
    var row := Row(k.env, t.occurrences[k].activation);
    assert RowLater(t.activations[row], t'.activations[row]);
  }

  /** New occurrences and Sessions are all that remains to be checked. */
  lemma CoreGrows(t: Tables, t': Tables)
    requires Core(t) && Extends(t, t') && RowsOk(t'.activations)
    requires forall k :: k in t'.occurrences && k !in t.occurrences ==> OccurrenceOk(t', k)
    requires forall s :: s in t'.sessions && s !in t.sessions ==> SessionOk(t', s)
    ensures Core(t')
  {
    forall k | k in t'.occurrences
      ensures OccurrenceOk(t', k)
    {
      if k in t.occurrences {
        OccurrenceKept(t, t', k);
      }
    }
    forall s | s in t'.sessions
      ensures SessionOk(t', s)
    {
      if s in t.sessions {
        assert SessionOk(t, s);
      }
    }
  }

  lemma EvaluateExtends(t: Tables, row: Row, now: int, e: Evaluation, t': Tables)
    requires RowsOk(t.activations) && row in t.activations
    requires Sound(t.activations[row], now, e) && Commits(t, row, now, e, t')
    ensures Extends(t, t') && RowsOk(t'.activations)
  {
    assert RowOk(t.activations[row]);
    assert RowLater(t.activations[row], t'.activations[row]);
  }

  lemma EvaluateKeeps(t: Tables, row: Row, now: int, e: Evaluation, t': Tables)
    requires Core(t) && row in t.activations && Sound(t.activations[row], now, e) && Commits(t, row, now, e, t')
    ensures Core(t') && Extends(t, t')
  {
    EvaluateExtends(t, row, now, e, t');
    forall k | k in t'.occurrences && k !in t.occurrences
      ensures OccurrenceOk(t', k)
    {
      assert Adds(t, row, now, e, t', k);
      assert RowOk(t.activations[row]);
    }
    CoreGrows(t, t');
  }

  // --------------------------------------------------------- promotion keeps it

  ghost predicate RowsLater(rows: map<Row, Activation>, rows': map<Row, Activation>) {
    forall row :: row in rows ==> row in rows' && RowLater(rows[row], rows'[row])
  }

  lemma {:induction false} InsertAllKeeps(rows: map<Row, Activation>, env: Id, cutover: int, ds: seq<Declaration>)
    requires RowsOk(rows) && AllLawful(rows) && forall d :: d in ds ==> Lawful(d.cron)
    requires InsertAll(rows, env, cutover, ds).Some?
    ensures var rows' := InsertAll(rows, env, cutover, ds).value;
      RowsOk(rows') && AllLawful(rows') && RowsLater(rows, rows')
  {
    if ds != [] {
      var d := ds[|ds| - 1];
      InsertAllKeeps(rows, env, cutover, ds[..|ds| - 1]);
      assert d in ds;
      NextIsLeastLaterInstant(d.cron, cutover - NANOSECOND);
      assert RowOk(Opened(d, cutover, d.cron(cutover - NANOSECOND).value));
    }
  }

  lemma CloseOpenKeeps(rows: map<Row, Activation>, env: Id, cutover: int)
    requires RowsOk(rows) && AllLawful(rows) && cutover % MICROSECOND == 0
    requires CloseOpen(rows, env, cutover).Some?
    ensures var rows' := CloseOpen(rows, env, cutover).value;
      RowsOk(rows') && AllLawful(rows') && RowsLater(rows, rows')
  {
    assert forall row :: row in rows ==> RowOk(rows[row]);
  }

  lemma PromoteKeeps(t: Tables, env: Id, cutover: int, ds: seq<Declaration>)
    requires Inv(t) && Legal(t, Promote(env, cutover, ds)) && Promoted(t, env, cutover, ds).Some?
    ensures Inv(Promoted(t, env, cutover, ds).value) && Extends(t, Promoted(t, env, cutover, ds).value)
  {
    var closed := CloseOpen(t.activations, env, cutover).value;
    CloseOpenKeeps(t.activations, env, cutover);
    InsertAllKeeps(closed, env, cutover, ds);
    var rows := InsertAll(closed, env, cutover, ds).value;
    RowsReplaced(t, closed, rows);
  }

  lemma RowsReplaced(t: Tables, rows: map<Row, Activation>, rows': map<Row, Activation>)
    requires Core(t) && RowsLater(t.activations, rows) && RowsLater(rows, rows') && RowsOk(rows')
    ensures Core(t.(activations := rows')) && Extends(t, t.(activations := rows'))
  {
    CoreGrows(t, t.(activations := rows'));
  }

  // ----------------------------------------------------------- sealing keeps it

  /** Sealing moves exactly the unfinished closed rows of the Agent in the
      Environment, each to its end. */
  lemma SealMovesExactly(t: Tables, env: Id, agent: Id, now: int, scan: seq<Id>)
    ensures var t' := Sealed(t, env, agent, now, scan);
      && t'.activations.Keys == t.activations.Keys && t'.sessions == t.sessions
      && forall row :: row in t.activations ==>
           var a := t.activations[row];
           t'.activations[row] ==
             if row.env == env && a.agent == agent && a.until.Some? && a.next < a.until.value then a.(next := a.until.value) else a
  {
  }

  /** What a sealing adds: the due cursors of the Agent's closed rows. */
  lemma {:induction false} MissSealedShape(t: Tables, env: Id, agent: Id, now: int, scan: seq<Id>)
    ensures var occurrences := MissSealed(t, env, agent, now, scan);
      && (forall k :: k in t.occurrences ==> k in occurrences && occurrences[k] == t.occurrences[k])
      && (forall k :: k in occurrences && k !in t.occurrences ==>
            var row := Row(env, occurrences[k].activation);
            && Sealable(t.activations, row, env, agent) && t.activations[row].next <= now
            && k == Key(row, t.activations[row], t.activations[row].next)
            && occurrences[k] == Occurrence(row.id, Missed(AgentDeleted), now))
      && (forall id :: id in scan && Sealable(t.activations, Row(env, id), env, agent) && t.activations[Row(env, id)].next <= now ==>
            Key(Row(env, id), t.activations[Row(env, id)], t.activations[Row(env, id)].next) in occurrences)
  {
    if scan != [] {
      MissSealedShape(t, env, agent, now, scan[..|scan| - 1]);
      assert scan == scan[..|scan| - 1] + [scan[|scan| - 1]];
    }
  }

  lemma SealKeeps(t: Tables, env: Id, agent: Id, now: int, scan: seq<Id>)
    requires Core(t)
    ensures Core(Sealed(t, env, agent, now, scan)) && Extends(t, Sealed(t, env, agent, now, scan))
  {
    MissSealedShape(t, env, agent, now, scan);
    var t' := Sealed(t, env, agent, now, scan);
    assert forall row :: row in t.activations ==> RowOk(t.activations[row]) && RowLater(t.activations[row], t'.activations[row]);
    CoreGrows(t, t');
  }

  // ---------------------------------------------------------------- whole runs

  /** A due evaluation that commits. */
  lemma CommitKeeps(t: Tables, row: Row, now: int, e: Evaluation, routeActive: bool, attempt: Attempt, t': Tables)
    requires Inv(t) && row in t.activations && e.Due?
    requires var a := t.activations[row]; Meets(a.cron, a.next, a.until, now, Success(e))
    requires CommitEvaluation(t, row, now, e, routeActive, attempt) == Some(t')
    ensures Inv(t') && Extends(t, t')
  {
    DecisionsAreSound(t.activations[row], now, e);
    CommitShape(t, row, now, e, routeActive, attempt);
    EvaluateKeeps(t, row, now, e, t');
  }

  lemma EvaluateStepKeeps(t: Tables, step: Step)
    requires step.Evaluate? && Inv(t) && Legal(t, step)
    ensures Inv(Apply(t, step)) && Extends(t, Apply(t, step))
  {
    var Evaluate(row, now, decision, routeActive, attempt) := step;
    if Outcome(t, step).Some? && row in t.activations && decision.Success? && decision.value.Due? {
      CommitKeeps(t, row, now, decision.value, routeActive, attempt, Apply(t, step));
    } else {
      assert Apply(t, step) == t;
    }
  }

  lemma StepKeeps(t: Tables, step: Step)
    requires Inv(t) && Legal(t, step)
    ensures Inv(Apply(t, step)) && Extends(t, Apply(t, step))
  {
    match step
    case Promote(env, cutover, ds) =>
      if Outcome(t, step).Some? {
        PromoteKeeps(t, env, cutover, ds);
      }
    case Seal(env, agent, at, scan) => SealKeeps(t, env, agent, at, scan);
    case Evaluate(_, _, _, _, _) => EvaluateStepKeeps(t, step);
  }

  lemma {:induction false} RunKeeps(t: Tables, steps: seq<Step>)
    requires Inv(t) && LegalRun(t, steps)
    ensures Inv(Run(t, steps)) && Extends(t, Run(t, steps))
    decreases |steps|
  {
    if steps != [] {
      StepKeeps(t, steps[0]);
      RunKeeps(Apply(t, steps[0]), steps[1..]);
      ExtendsTransitive(t, Apply(t, steps[0]), Run(t, steps));
    }
  }

  /** Sessions and admitted occurrences correspond one to one, so no instant
      starts two Sessions, and every admitted instant is an instant of its
      activation's schedule, of a trigger whose Slack destination, if any, is
      connected, at or after the activation's start, not early, and
      at most the lateness old. */
  ghost predicate AdmissionIsExact(t: Tables) {
    && (forall s :: s in t.sessions ==>
          t.sessions[s] in t.occurrences && t.occurrences[t.sessions[s]].disposition == Admitted(s))
    && (forall s, s' :: s in t.sessions && s' in t.sessions && t.sessions[s] == t.sessions[s'] ==> s == s')
    && (forall k :: k in t.occurrences && t.occurrences[k].disposition.Admitted? ==>
          var o := t.occurrences[k];
          && o.disposition.session in t.sessions && t.sessions[o.disposition.session] == k
          && Row(k.env, o.activation) in t.activations
          && IsInstant(t.activations[Row(k.env, o.activation)].cron, k.at) && !t.activations[Row(k.env, o.activation)].slack.Waiting?
          && t.activations[Row(k.env, o.activation)].from <= k.at <= o.evaluatedAt <= k.at + TRIGGER_LATENESS)
  }

  lemma CoreIsExact(t: Tables)
    requires Core(t)
    ensures AdmissionIsExact(t)
  {
    assert forall s :: s in t.sessions ==> SessionOk(t, s);
    assert forall k :: k in t.occurrences ==> OccurrenceOk(t, k);
  }

  /** Over every run from empty tables admission is exact, and whatever was
      recorded after the first `n` steps is still recorded, unchanged, at the end. */
  lemma AdmissionOverRuns(steps: seq<Step>, n: nat)
    requires LegalRun(EMPTY, steps) && n <= |steps|
    ensures AdmissionIsExact(Run(EMPTY, steps))
    ensures Extends(Run(EMPTY, steps[..n]), Run(EMPTY, steps))
  {
    RunKeeps(EMPTY, steps);
    CoreIsExact(Run(EMPTY, steps));
    RunSplits(EMPTY, steps, n);
    RunKeeps(EMPTY, steps[..n]);
    RunKeeps(Run(EMPTY, steps[..n]), steps[n..]);
  }

  lemma {:induction false} RunSplits(t: Tables, steps: seq<Step>, n: nat)
    requires n <= |steps| && LegalRun(t, steps)
    ensures LegalRun(t, steps[..n]) && LegalRun(Run(t, steps[..n]), steps[n..])
    ensures Run(t, steps) == Run(Run(t, steps[..n]), steps[n..])
    decreases n
  {
    if n == 0 {
      assert steps[..0] == [] && steps[0..] == steps;
    } else {
      assert steps[..n][1..] == steps[1..][..n - 1];
      assert steps[1..][n - 1..] == steps[n..];
      RunSplits(Apply(t, steps[0]), steps[1..], n - 1);
    }
  }

  /** The due condition of the reconciliation query. */
  predicate IsDue(a: Activation, now: int) {
    a.next <= now && (a.until.None? || a.next < a.until.value)
  }

  /** The query selects a row exactly when its evaluation finds something to do. */
  lemma DueExactly(a: Activation, now: int, r: Result<Evaluation, CronError>)
    requires Lawful(a.cron) && RowOk(a) && Meets(a.cron, a.next, a.until, now, r)
    ensures IsDue(a, now) <==> r != Success(NotDue)
  {
    if a.until.Some? && a.until.value <= now && a.next > End(a.until, now) {
      NotDuePassedEnd(a, now);
    }
  }

  /** A used-up activation is never due again, whatever runs after it. */
  lemma NeverDueAgain(t: Tables, steps: seq<Step>, row: Row, now: int)
    requires Inv(t) && LegalRun(t, steps)
    requires row in t.activations && t.activations[row].until.Some?
    requires t.activations[row].until.value <= t.activations[row].next
    ensures row in Run(t, steps).activations && !IsDue(Run(t, steps).activations[row], now)
  {
    RunKeeps(t, steps);
    assert RowLater(t.activations[row], Run(t, steps).activations[row]);
  }

  /** Sealing uses every closed activation of the Agent up. */
  lemma SealingUsesUp(t: Tables, env: Id, agent: Id, now: int, scan: seq<Id>, row: Row, later: int)
    requires row in t.activations && row.env == env && t.activations[row].agent == agent && t.activations[row].until.Some?
    ensures !IsDue(Sealed(t, env, agent, now, scan).activations[row], later)
  {
  }

  /** The step evaluates the closed row at or after its end, whatever it finds due,
      or seals the row's Agent. */
  ghost predicate UsesUp(t: Tables, step: Step, row: Row)
    requires row in t.activations
  {
    var a := t.activations[row];
    && a.until.Some?
    && (|| (step.Evaluate? && step.row == row && Outcome(t, step).Some? && a.until.value <= step.now)
        || (step.Seal? && step.env == row.env && step.agent == a.agent))
  }

  /** After such a step the row is never due again, whatever runs later. */
  lemma UsedUpForGood(t: Tables, step: Step, rest: seq<Step>, row: Row, later: int)
    requires Inv(t) && Legal(t, step) && LegalRun(Apply(t, step), rest)
    requires row in t.activations && UsesUp(t, step, row)
    ensures var end := Run(Apply(t, step), rest);
      row in end.activations && !IsDue(end.activations[row], later)
  {
    StepKeeps(t, step);
    if step.Evaluate? {
      EvaluationPassesEnd(t, step, row);
    }
    assert RowLater(t.activations[row], Apply(t, step).activations[row]);
    NeverDueAgain(Apply(t, step), rest, row, later);
  }

  lemma EvaluationPassesEnd(t: Tables, step: Step, row: Row)
    requires Inv(t) && Legal(t, step) && step.Evaluate? && row in t.activations && UsesUp(t, step, row)
    ensures row in Apply(t, step).activations && Apply(t, step).activations[row].next >= t.activations[row].until.value
  {
    var a := t.activations[row];
    assert RowOk(a);
    if step.decision.value.NotDue? {
      NotDuePassedEnd(a, step.now);
    } else {
      EvaluationBounds(a.cron, a.next, a.until, step.now, step.decision.value);
    }
  }

  /** On the microsecond grid, a cursor after the last moment of the interval is
      at or after its end. */
  lemma NotDuePassedEnd(a: Activation, now: int)
    requires Lawful(a.cron) && RowOk(a) && a.until.Some? && a.until.value <= now && a.next > End(a.until, now)
    ensures a.next >= a.until.value
  {
    assert IsInstant(a.cron, a.next) ==> a.cron(a.next - 1).value % MICROSECOND == 0;
  }

  /** One committed evaluation of a due row, however long the outage: the cursor
      strictly advances, past the end once the end has come, at most two
      occurrences and one Session are added, and the cursor and the selected
      instant end up recorded. */
  lemma EvaluationIsBounded(t: Tables, row: Row, now: int, e: Evaluation, routeActive: bool, attempt: Attempt)
    requires Inv(t) && row in t.activations
    requires var a := t.activations[row]; Meets(a.cron, a.next, a.until, now, Success(e))
    requires e.Due? && CommitEvaluation(t, row, now, e, routeActive, attempt).Some?
    ensures var a := t.activations[row];
      var t' := CommitEvaluation(t, row, now, e, routeActive, attempt).value;
      && t'.activations[row].next > a.next
      && (a.until.Some? && now >= a.until.value ==> !IsDue(t'.activations[row], now))
      && |t'.occurrences| <= |t.occurrences| + 2
      && |t'.sessions| <= |t.sessions| + 1
      && (e.latest.Some? ==> Key(row, a, e.latest.value) in t'.occurrences)
      && Key(row, a, a.next) in t'.occurrences
  {
    var a := t.activations[row];
    assert RowOk(a);
    DecisionsAreSound(a, now, e);
    EvaluationBounds(a.cron, a.next, a.until, now, e);
    CommitShape(t, row, now, e, routeActive, attempt);
    CommitIsBounded(t, row, now, e, CommitEvaluation(t, row, now, e, routeActive, attempt).value);
  }

  /** The evaluation of the row settles the instant: it is recorded, a later
      recorded instant was chosen over it, or it was older than the lateness. */
  ghost predicate Settles(t: Tables, t': Tables, row: Row, now: int, e: Evaluation, v: int)
    requires row in t.activations && e.Due?
  {
    var a := t.activations[row];
    || Key(row, a, v) in t'.occurrences
    || (e.latest.Some? && v < e.latest.value && Key(row, a, e.latest.value) in t'.occurrences)
    || (e.latest.None? && v < now - TRIGGER_LATENESS)
  }

  /** Whatever the clock readings, an instant a committed evaluation moves the
      cursor past is recorded, superseded by a later recorded instant, or older
      than the lateness. */
  lemma PassedInstantsAreAccountedFor(t: Tables, row: Row, now: int, e: Evaluation, routeActive: bool, attempt: Attempt, v: int)
    requires Inv(t) && row in t.activations
    requires var a := t.activations[row]; Meets(a.cron, a.next, a.until, now, Success(e))
    requires e.Due? && CommitEvaluation(t, row, now, e, routeActive, attempt).Some?
    requires IsInstant(t.activations[row].cron, v) && t.activations[row].next <= v
    requires v < CommitEvaluation(t, row, now, e, routeActive, attempt).value.activations[row].next
    ensures Settles(t, CommitEvaluation(t, row, now, e, routeActive, attempt).value, row, now, e, v)
  {
    var a := t.activations[row];
    DecisionsAreSound(a, now, e);
    CommitShape(t, row, now, e, routeActive, attempt);
    PassedOver(a.cron, a.next, a.until, now, e, v);
  }

  lemma CommitIsBounded(t: Tables, row: Row, now: int, e: Evaluation, t': Tables)
    requires row in t.activations && e.Due? && Commits(t, row, now, e, t')
    ensures |t'.occurrences| <= |t.occurrences| + 2
    ensures |t'.sessions| <= |t.sessions| + 1
  {
    var a := t.activations[row];
    var cursor := Key(row, a, a.next);
    var latest := if e.latest.Some? then Key(row, a, e.latest.value) else cursor;
    forall k | k in t'.occurrences && k !in t.occurrences
      ensures k == cursor || k == latest
    {
      assert Adds(t, row, now, e, t', k);
    }
    AtMost(t.occurrences, t'.occurrences, [cursor, latest]);
    if t'.sessions != t.sessions {
      var s: Id :| Starts(t, row, e, t', s);
      AtMost(t.sessions, t'.sessions, [s]);
    } else {
      AtMost(t.sessions, t'.sessions, []);
    }
  }

  /** A map that gains only keys of a list grows by at most the list's length. */
  lemma {:induction false} AtMost<K, V>(m: map<K, V>, m': map<K, V>, added: seq<K>)
    requires forall k :: k in m' ==> k in m || k in added
    ensures |m'| <= |m| + |added|
  {
    if added == [] {
      Sets.SubsetSize(m'.Keys, m.Keys);
    } else {
      var less := m' - {added[0]};
      assert less.Keys == m'.Keys - {added[0]};
      assert forall k :: k in added ==> k == added[0] || k in added[1..];
      AtMost(m, less, added[1..]);
    }
  }
}
