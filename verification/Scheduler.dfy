/** The trigger tables and the transactions that change them.

    Every transaction takes the Environment lock, so it is one atomic step that
    commits whole or changes nothing. Clock readings, the admission outcome and
    the scan order of a bulk insert are inputs of the steps. */
module Scheduler {
  import opened Wrappers
  import opened Cron
  import opened TriggerEvaluation

  type Id = nat

  const NIL: Id := 0

  /** The Slack destination of an activation: none declared, declared but
      waiting for a connection, or pinned to a channel binding. */
  datatype Slack = NoChannel | Waiting | Bound(binding: Id)

  datatype Row = Row(env: Id, id: Id)

  /** A half-open interval of one trigger with its `next_fire_at` cursor. */
  datatype Activation = Activation(agent: Id, trigger: string, cron: Schedule, slack: Slack,
                                   from: int, until: Option<int>, next: int)

  /** The primary key of an occurrence. */
  datatype Instant = Instant(env: Id, agent: Id, trigger: string, at: int)

  datatype MissReason = Superseded | LatenessExceeded | AgentDeleted

  datatype RejectReason =
    | ExecutionSettling
    | EnvironmentExecutionLimit
    | CapacityIncompatible
    | CapacityExhausted
    | SlackNotConnected
    | SlackChannelUnavailable
    | AgentIsDeleted
    | ExecutionDenied
    | InvalidDefinition

  datatype Disposition =
    | Admitted(session: Id)
    | Rejected(rejected: RejectReason)
    | Missed(missed: MissReason)

  datatype Occurrence = Occurrence(activation: Id, disposition: Disposition, evaluatedAt: int)

  datatype Tables = Tables(activations: map<Row, Activation>,
                           occurrences: map<Instant, Occurrence>,
                           sessions: map<Id, Instant>)

  /** What Session admission does: it starts a Session, refuses for good, or
      fails in a way that rolls the evaluation back. */
  datatype Attempt = Admit(session: Id) | Refuse(reason: RejectReason) | Fail

  function Key(row: Row, a: Activation, at: int): Instant {
    Instant(row.env, a.agent, a.trigger, at)
  }

  // -------------------------------------------------------------- evaluation

  /** INSERT ... ON CONFLICT DO NOTHING. */
  function Record(occurrences: map<Instant, Occurrence>, k: Instant, o: Occurrence): map<Instant, Occurrence> {
    if k in occurrences then occurrences else occurrences[k := o]
  }

  function AdmitScheduledSession(a: Activation, routeActive: bool, sessions: map<Id, Instant>, attempt: Attempt): Attempt {
    if a.slack.Waiting? then Refuse(SlackNotConnected)
    else if a.slack.Bound? && !routeActive then Refuse(SlackChannelUnavailable)
    else if attempt.Admit? && attempt.session in sessions then Fail
    else attempt
  }

  /** The occurrences after the cursor was recorded as missed, if it was. */
  function MissCursor(t: Tables, row: Row, a: Activation, now: int, e: Evaluation): map<Instant, Occurrence>
    requires e.Due?
  {
    if e.missed.None? then t.occurrences
    else Record(t.occurrences, Key(row, a, e.missed.value),
                Occurrence(row.id, Missed(if e.latest.None? then LatenessExceeded else Superseded), now))
  }

  /** The tables after a due evaluation commits, or none after a rollback. */
  function CommitEvaluation(t: Tables, row: Row, now: int, e: Evaluation, routeActive: bool, attempt: Attempt): Option<Tables>
    requires row in t.activations && e.Due?
  {
    var a := t.activations[row];
    var moved := t.activations[row := a.(next := e.next)];
    var occurrences := MissCursor(t, row, a, now, e);
    if e.latest.None? || Key(row, a, e.latest.value) in occurrences then
      Some(Tables(moved, occurrences, t.sessions))
    else
      var k := Key(row, a, e.latest.value);
      match AdmitScheduledSession(a, routeActive, t.sessions, attempt)
      case Fail => None
      case Refuse(reason) =>
        Some(Tables(moved, Record(occurrences, k, Occurrence(row.id, Rejected(reason), now)), t.sessions))
      case Admit(session) =>
        Some(Tables(moved, Record(occurrences, k, Occurrence(row.id, Admitted(session), now)), t.sessions[session := k]))
  }

  function Evaluated(t: Tables, row: Row, now: int, decision: Result<Evaluation, CronError>,
                     routeActive: bool, attempt: Attempt): Option<Tables> {
    if row.env == NIL || row.id == NIL then None
    else if row !in t.activations then Some(t)
    else match decision
      case Failure(_) => None
      case Success(NotDue) => Some(t)
      case Success(Due(_, _, _)) => CommitEvaluation(t, row, now, decision.value, routeActive, attempt)
  }

  // --------------------------------------------------------------- promotion

  /** One trigger the promoted Deployment declares, with its new activation id. */
  datatype Declaration = Declaration(id: Id, agent: Id, trigger: string, cron: Schedule, slack: Slack)

  predicate IsOpen(rows: map<Row, Activation>, row: Row, env: Id) {
    row in rows && row.env == env && rows[row].until.None?
  }

  /** UPDATE ... SET active_until, refused by CHECK (active_until >= active_from). */
  function CloseOpen(rows: map<Row, Activation>, env: Id, cutover: int): Option<map<Row, Activation>> {
    if exists row :: row in rows && IsOpen(rows, row, env) && rows[row].from > cutover then None
    else Some(map row | row in rows :: if IsOpen(rows, row, env) then rows[row].(until := Some(cutover)) else rows[row])
  }

  function Opened(d: Declaration, cutover: int, next: int): Activation {
    Activation(d.agent, d.trigger, d.cron, d.slack, cutover, None, next)
  }

  /** INSERT of one row, refused by the primary key, by the unique index on open
      rows, or because the cron lookup has no answer. */
  function Insert(rows: map<Row, Activation>, env: Id, cutover: int, d: Declaration): Option<map<Row, Activation>> {
    var next := d.cron(cutover - NANOSECOND);
    if next.None? || Row(env, d.id) in rows then None
    else if exists row :: row in rows && IsOpen(rows, row, env) && rows[row].agent == d.agent && rows[row].trigger == d.trigger then None
    else Some(rows[Row(env, d.id) := Opened(d, cutover, next.value)])
  }

  function InsertAll(rows: map<Row, Activation>, env: Id, cutover: int, ds: seq<Declaration>): Option<map<Row, Activation>> {
    if ds == [] then Some(rows)
    else match InsertAll(rows, env, cutover, ds[..|ds| - 1])
      case None => None
      case Some(before) => Insert(before, env, cutover, ds[|ds| - 1])
  }

  function Promoted(t: Tables, env: Id, cutover: int, ds: seq<Declaration>): Option<Tables> {
    match CloseOpen(t.activations, env, cutover)
    case None => None
    case Some(closed) =>
      match InsertAll(closed, env, cutover, ds)
      case None => None
      case Some(rows) => Some(t.(activations := rows))
  }

  // ----------------------------------------------------------------- sealing

  predicate Sealable(rows: map<Row, Activation>, row: Row, env: Id, agent: Id) {
    && row in rows && row.env == env && rows[row].agent == agent
    && rows[row].until.Some? && rows[row].next < rows[row].until.value
  }

  /** The cursors a deletion records as missed, taken in scan order. */
  function MissSealed(t: Tables, env: Id, agent: Id, now: int, scan: seq<Id>): map<Instant, Occurrence> {
    if scan == [] then t.occurrences
    else
      var before := MissSealed(t, env, agent, now, scan[..|scan| - 1]);
      var row := Row(env, scan[|scan| - 1]);
      if Sealable(t.activations, row, env, agent) && t.activations[row].next <= now then
        Record(before, Key(row, t.activations[row], t.activations[row].next), Occurrence(row.id, Missed(AgentDeleted), now))
      else before
  }

  function SealRows(rows: map<Row, Activation>, env: Id, agent: Id): map<Row, Activation> {
    map row | row in rows :: if Sealable(rows, row, env, agent) then rows[row].(next := rows[row].until.value) else rows[row]
  }

  function Sealed(t: Tables, env: Id, agent: Id, now: int, scan: seq<Id>): Tables {
    t.(activations := SealRows(t.activations, env, agent), occurrences := MissSealed(t, env, agent, now, scan))
  }

  /** The scan of a bulk insert meets every row of the Agent. */
  predicate Covers(t: Tables, env: Id, agent: Id, scan: seq<Id>) {
    forall row :: row in t.activations && row.env == env && t.activations[row].agent == agent ==> row.id in scan
  }

  // ---------------------------------------------------------- the transactions

  class TriggerStore {
    var activations: map<Row, Activation>
    var occurrences: map<Instant, Occurrence>
    var sessions: map<Id, Instant>

    constructor ()
      ensures Current() == Tables(map[], map[], map[])
    {
      activations, occurrences, sessions := map[], map[], map[];
    }

    ghost function Current(): Tables
      reads this
    {
      Tables(activations, occurrences, sessions)
    }

    /** Closes the open intervals of the Environment and opens the declared ones. */
    method ReplaceActivations(env: Id, cutover: int, ds: seq<Declaration>) returns (ok: bool)
      modifies this
      ensures ok == Promoted(old(Current()), env, cutover, ds).Some?
      ensures Current() == if ok then Promoted(old(Current()), env, cutover, ds).value else old(Current())
    {
      var closed := CloseOpen(activations, env, cutover);
      if closed.None? {
        return false;
      }
      var rows := closed.value;
      for i := 0 to |ds|
        invariant InsertAll(closed.value, env, cutover, ds[..i]) == Some(rows)
        invariant unchanged(this)
      {
        assert ds[..i + 1][..i] == ds[..i];
        var inserted := Insert(rows, env, cutover, ds[i]);
        if inserted.None? {
          InsertAllFailsLater(closed.value, env, cutover, ds, i + 1);
          return false;
        }
        rows := inserted.value;
      }
      assert ds[..|ds|] == ds;
      activations := rows;
      ok := true;
    }

    /** Evaluates one activation: occurrence, admission and cursor commit together. */
    method EvaluateTrigger(env: Id, id: Id, now: int, routeActive: bool, attempt: Attempt)
      returns (ok: bool, ghost decision: Result<Evaluation, CronError>)
      requires Row(env, id) in activations ==> Lawful(activations[Row(env, id)].cron)
      modifies this
      ensures var row := Row(env, id);
        row in old(activations) && env != NIL && id != NIL ==>
          var a := old(activations)[row]; Meets(a.cron, a.next, a.until, now, decision)
      ensures ok == Evaluated(old(Current()), Row(env, id), now, decision, routeActive, attempt).Some?
      ensures Current() ==
        if ok then Evaluated(old(Current()), Row(env, id), now, decision, routeActive, attempt).value else old(Current())
    {
      decision := Success(NotDue);
      if env == NIL || id == NIL {
        return false, decision;
      }
      var row := Row(env, id);
      if row !in activations {
        return true, decision;
      }
      var a := activations[row];
      var evaluation := TriggerEvaluation.EvaluateTrigger(a.cron, a.next, a.until, now);
      decision := evaluation;
      if evaluation.Failure? {
        return false, decision;
      }
      if evaluation.value.NotDue? {
        return true, decision;
      }
      ok := Commit(row, now, evaluation.value, routeActive, attempt);
    }

    /** Records the missed cursor, admits the latest instant unless it is recorded
        already, and moves the cursor; a failed admission rolls all of it back. */
    method Commit(row: Row, now: int, e: Evaluation, routeActive: bool, attempt: Attempt) returns (ok: bool)
      requires row in activations && e.Due?
      modifies this
      ensures ok == CommitEvaluation(old(Current()), row, now, e, routeActive, attempt).Some?
      ensures Current() ==
        if ok then CommitEvaluation(old(Current()), row, now, e, routeActive, attempt).value else old(Current())
    {
      var a, recorded := activations[row], occurrences;
      if e.missed.Some? {
        var reason := Superseded;
        if e.latest.None? {
          reason := LatenessExceeded;
        }
        recorded := Record(recorded, Key(row, a, e.missed.value), Occurrence(row.id, Missed(reason), now));
      }
      if e.latest.Some? && Key(row, a, e.latest.value) !in recorded {
        var k := Key(row, a, e.latest.value);
        match AdmitScheduledSession(a, routeActive, sessions, attempt) {
          case Fail =>
            return false;
          case Refuse(reason) =>
            recorded := Record(recorded, k, Occurrence(row.id, Rejected(reason), now));
          case Admit(session) =>
            recorded := Record(recorded, k, Occurrence(row.id, Admitted(session), now));
            sessions := sessions[session := k];
        }
      }
      occurrences := recorded;
      activations := activations[row := a.(next := e.next)];
      ok := true;
    }

    /** Records the due cursors of a deleted Agent and moves them to their ends. */
    method SealDeletedAgent(env: Id, agent: Id, now: int, scan: seq<Id>) returns (affected: nat)
      modifies this
      ensures Current() == Sealed(old(Current()), env, agent, now, scan)
      ensures affected == |set row | row in old(activations) && Sealable(old(activations), row, env, agent)|
    {
      for i := 0 to |scan|
        invariant activations == old(activations) && sessions == old(sessions)
        invariant occurrences == MissSealed(old(Current()), env, agent, now, scan[..i])
      {
        assert scan[..i + 1][..i] == scan[..i];
        var row := Row(env, scan[i]);
        if Sealable(activations, row, env, agent) && activations[row].next <= now {
          occurrences := Record(occurrences, Key(row, activations[row], activations[row].next),
                                Occurrence(row.id, Missed(AgentDeleted), now));
        }
      }
      assert scan[..|scan|] == scan;
      affected := |set row | row in activations && Sealable(activations, row, env, agent)|;
      activations := SealRows(activations, env, agent);
    }
  }

  lemma {:induction false} InsertAllFailsLater(rows: map<Row, Activation>, env: Id, cutover: int, ds: seq<Declaration>, n: nat)
    requires n <= |ds| && InsertAll(rows, env, cutover, ds[..n]).None?
    ensures InsertAll(rows, env, cutover, ds).None?
    decreases |ds| - n
  {
    if n < |ds| {
      assert ds[..n + 1][..n] == ds[..n];
      InsertAllFailsLater(rows, env, cutover, ds, n + 1);
    } else {
      assert ds[..n] == ds;
    }
  }
}
