/** Runner supervision as a state machine over the steps of the supervisor, the
    runner goroutines and the two contexts. */
module Supervision {
  import Sets

  /** What a runner's function returned. */
  datatype Return = ReturnedNil | ReturnedCanceled | ReturnedError

  /** What a runner sends: no error, an unexpected exit, or its own error. */
  datatype Sent = NoError | StoppedUnexpectedly | RunnerError

  /** A runner goroutine; `stopping` is whether it saw the run context ended
      after its function returned. */
  datatype Runner =
    | Running
    | Returning(result: Return)
    | Sending(result: Return, stopping: bool)
    | Finishing(result: Return, stopping: bool)
    | Exited(result: Return, stopping: bool)

  datatype Phase = Selecting | Cancelling | Waiting | Draining | Finished

  /** An outcome on the channel, with the runner it came from. */
  datatype Message = Message(runner: nat, sent: Sent)

  datatype State = State(runners: seq<Runner>, channel: seq<Message>, consumed: seq<Message>, phase: Phase,
                         parentDone: bool, runDone: bool)

  datatype Step =
    | CancelParent
    | Propagate
    | Return(i: nat, result: Return)
    | Observe(i: nat)
    | Send(i: nat)
    | Exit(i: nat)
    | SelectParent
    | SelectMessage
    | Cancel
    | Join
    | Drain
    | Finish

  /** How a runner's result is reported, given whether it saw the run context done. */
  function Report(result: Return, stopping: bool): Sent {
    if stopping && !result.ReturnedError? then NoError
    else if result.ReturnedError? then RunnerError
    else StoppedUnexpectedly
  }

  /** The step is possible; a send needs room in the buffered channel. */
  predicate Enabled(s: State, step: Step) {
    match step
    case CancelParent => !s.parentDone
    case Propagate => s.parentDone && !s.runDone
    case Return(i, _) => i < |s.runners| && s.runners[i].Running?
    case Observe(i) => i < |s.runners| && s.runners[i].Returning?
    case Send(i) => i < |s.runners| && s.runners[i].Sending? && |s.channel| < |s.runners|
    case Exit(i) => i < |s.runners| && s.runners[i].Finishing?
    case SelectParent => s.phase.Selecting? && s.parentDone
    case SelectMessage => s.phase.Selecting? && s.channel != []
    case Cancel => s.phase.Cancelling?
    case Join => s.phase.Waiting? && forall i :: 0 <= i < |s.runners| ==> s.runners[i].Exited?
    case Drain => s.phase.Draining? && s.channel != []
    case Finish => s.phase.Draining? && s.channel == []
  }

  function Apply(s: State, step: Step): State
    requires Enabled(s, step)
  {
    match step
    case CancelParent => s.(parentDone := true)
    case Propagate => s.(runDone := true)
    case Return(i, result) => s.(runners := s.runners[i := Returning(result)])
    case Observe(i) => s.(runners := s.runners[i := Sending(s.runners[i].result, s.runDone)])
    case Send(i) =>
      var r := s.runners[i];
      s.(runners := s.runners[i := Finishing(r.result, r.stopping)], channel := s.channel + [Message(i, Report(r.result, r.stopping))])
    case Exit(i) => s.(runners := s.runners[i := Exited(s.runners[i].result, s.runners[i].stopping)])
    case SelectParent => s.(phase := Cancelling)
    case SelectMessage => Receive(s).(phase := Cancelling)
    case Cancel => s.(phase := Waiting, runDone := true)
    case Join => s.(phase := Draining)
    case Drain => Receive(s)
    case Finish => s.(phase := Finished)
  }

  function Receive(s: State): State
    requires s.channel != []
  {
    s.(channel := s.channel[1..], consumed := s.consumed + [s.channel[0]])
  }

  function Start(n: nat): State {
    State(seq(n, _ => Running), [], [], Selecting, false, false)
  }

  /** The joined error is nil when no consumed outcome is an error. */
  ghost predicate ReturnsNil(s: State) {
    forall k :: 0 <= k < |s.consumed| ==> s.consumed[k].sent.NoError?
  }

  // ------------------------------------------------------- the invariant

  predicate HasSent(r: Runner) {
    r.Finishing? || r.Exited?
  }

  /** Every outcome ever sent, consumed or not. */
  function Log(s: State): seq<Message> {
    s.consumed + s.channel
  }

  predicate Distinct(log: seq<Message>) {
    forall j, k :: 0 <= j < k < |log| ==> log[j].runner != log[k].runner
  }

  ghost predicate Logged(log: seq<Message>, i: nat) {
    exists k :: 0 <= k < |log| && log[k].runner == i
  }

  /** The log has the outcome of exactly the runners that have sent. */
  ghost predicate Faithful(runners: seq<Runner>, log: seq<Message>) {
    && (forall k :: 0 <= k < |log| ==>
          && log[k].runner < |runners| && HasSent(runners[log[k].runner])
          && log[k].sent == Report(runners[log[k].runner].result, runners[log[k].runner].stopping))
    && (forall i: nat {:trigger Logged(log, i)} :: i < |runners| && HasSent(runners[i]) ==> Logged(log, i))
  }

  /** The supervisor has cancelled the runners. */
  predicate Cancelled(phase: Phase) {
    phase.Waiting? || phase.Draining? || phase.Finished?
  }

  /** Before the supervisor cancels, only the parent can have ended the run
      context, and afterwards it has ended; a clean outcome was decided with the
      run context ended. */
  ghost predicate Contexts(s: State) {
    && (Cancelled(s.phase) ==> s.runDone)
    && (s.runDone && !Cancelled(s.phase) ==> s.parentDone)
    && (forall i :: 0 <= i < |s.runners| && (s.runners[i].Sending? || HasSent(s.runners[i])) && s.runners[i].stopping ==> s.runDone)
  }

  ghost predicate Phases(s: State) {
    && (s.phase.Selecting? ==> s.consumed == [])
    && (!s.phase.Selecting? && !s.parentDone ==> s.consumed != [] && !s.consumed[0].sent.NoError?)
    && (s.phase.Draining? || s.phase.Finished? ==> forall i :: 0 <= i < |s.runners| ==> s.runners[i].Exited?)
    && (s.phase.Finished? ==> s.channel == [])
  }

  ghost predicate Inv(s: State) {
    Distinct(Log(s)) && Faithful(s.runners, Log(s)) && Contexts(s) && Phases(s)
  }

  lemma StartIsInv(n: nat)
    ensures Inv(Start(n))
  {
  }

  lemma ReceiveKeepsLog(s: State)
    requires s.channel != []
    ensures Log(Receive(s)) == Log(s)
  {
  }

  lemma SendDistinct(runners: seq<Runner>, log: seq<Message>, m: Message)
    requires Distinct(log) && Faithful(runners, log) && m.runner < |runners| && !HasSent(runners[m.runner])
    ensures Distinct(log + [m])
  {
  }

  lemma SendFaithful(runners: seq<Runner>, log: seq<Message>, m: Message, r: Runner)
    requires Faithful(runners, log) && m.runner < |runners| && !HasSent(runners[m.runner])
    requires HasSent(r) && m.sent == Report(r.result, r.stopping)
    ensures Faithful(runners[m.runner := r], log + [m])
  {
    var runners', log' := runners[m.runner := r], log + [m];
    forall j: nat | j < |runners'| && HasSent(runners'[j])
      ensures Logged(log', j)
    {
      if j == m.runner {
        assert log'[|log|].runner == j;
      } else {
        assert Logged(log, j);
        var k :| 0 <= k < |log| && log[k].runner == j;
        assert log'[k].runner == j;
      }
    }
  }

  lemma SendKeepsOrder(s: State, i: nat)
    requires Contexts(s) && Phases(s) && Enabled(s, Send(i))
    ensures Contexts(Apply(s, Send(i))) && Phases(Apply(s, Send(i)))
  {
  }

  lemma SendKeeps(s: State, i: nat)
    requires Inv(s) && Enabled(s, Send(i))
    ensures Inv(Apply(s, Send(i)))
  {
    var s', r := Apply(s, Send(i)), s.runners[i];
    var m := Message(i, Report(r.result, r.stopping));
    assert Log(s') == Log(s) + [m];
    SendDistinct(s.runners, Log(s), m);
    SendFaithful(s.runners, Log(s), m, Finishing(r.result, r.stopping));
    SendKeepsOrder(s, i);
  }

  lemma StepKeeps(s: State, step: Step)
    requires Inv(s) && Enabled(s, step)
    ensures Inv(Apply(s, step)) && |Apply(s, step).runners| == |s.runners|
  {
    match step
    case Send(i) => SendKeeps(s, i);
    case SelectMessage =>
      ReceiveKeepsLog(s);
      assert Log(s)[0] == s.channel[0];
    case Drain => ReceiveKeepsLog(s);
    case _ => RestKeeps(s, step);
  }

  /** The steps that put nothing on the channel and take nothing from it. */
  predicate KeepsLog(step: Step) {
    !step.Send? && !step.SelectMessage? && !step.Drain?
  }

  /** Who has sent, and what, is the same. */
  predicate SameSent(runners: seq<Runner>, runners': seq<Runner>) {
    |runners'| == |runners| &&
    forall i :: 0 <= i < |runners| ==>
      && HasSent(runners'[i]) == HasSent(runners[i])
      && (HasSent(runners[i]) ==> runners'[i].result == runners[i].result && runners'[i].stopping == runners[i].stopping)
  }

  lemma SameSentIsFaithful(runners: seq<Runner>, runners': seq<Runner>, log: seq<Message>)
    requires Faithful(runners, log) && SameSent(runners, runners')
    ensures Faithful(runners', log)
  {
  }

  lemma RestKeepsSent(s: State, step: Step)
    requires Enabled(s, step) && KeepsLog(step)
    ensures SameSent(s.runners, Apply(s, step).runners) && Log(Apply(s, step)) == Log(s)
  {
  }

  lemma RestKeepsContexts(s: State, step: Step)
    requires Contexts(s) && Enabled(s, step) && KeepsLog(step)
    ensures Contexts(Apply(s, step))
  {
  }

  lemma RestKeepsPhases(s: State, step: Step)
    requires Phases(s) && Enabled(s, step) && KeepsLog(step)
    ensures Phases(Apply(s, step))
  {
  }

  lemma RestKeeps(s: State, step: Step)
    requires Inv(s) && Enabled(s, step) && KeepsLog(step)
    ensures Inv(Apply(s, step)) && |Apply(s, step).runners| == |s.runners|
  {
    RestKeepsSent(s, step);
    SameSentIsFaithful(s.runners, Apply(s, step).runners, Log(s));
    RestKeepsContexts(s, step);
    RestKeepsPhases(s, step);
  }

  // ------------------------------------------------------ no send blocks

  function Ids(log: seq<Message>): set<nat> {
    set k | 0 <= k < |log| :: log[k].runner
  }

  function Indices(n: nat): set<nat> {
    if n == 0 then {} else Indices(n - 1) + {n - 1}
  }

  lemma {:induction false} IndicesAreBelow(n: nat)
    ensures |Indices(n)| == n && forall i :: i in Indices(n) <==> 0 <= i < n
  {
    if n > 0 {
      IndicesAreBelow(n - 1);
    }
  }

  lemma {:induction false} DistinctIds(log: seq<Message>)
    requires Distinct(log)
    ensures |Ids(log)| == |log|
  {
    if log != [] {
      var init, last := log[..|log| - 1], log[|log| - 1];
      DistinctIds(init);
      assert Ids(log) == Ids(init) + {last.runner} by {
        assert forall k :: 0 <= k < |init| ==> init[k] == log[k];
        assert log[|log| - 1].runner == last.runner;
      }
      assert last.runner !in Ids(init);
    }
  }

  /** A runner about to send always finds room. */
  lemma SendNeverBlocks(s: State, i: nat)
    requires Inv(s) && i < |s.runners| && s.runners[i].Sending?
    ensures Enabled(s, Send(i))
  {
    var n := |s.runners|;
    DistinctIds(Log(s));
    IndicesAreBelow(n);
    assert Ids(Log(s)) <= Indices(n) - {i};
    Sets.SubsetSize(Ids(Log(s)), Indices(n) - {i});
  }

  /** In every state that is not the end some step of the program is possible,
      unless it waits for a runner's function or for a parent with no runners. */
  lemma NoDeadlock(s: State) returns (step: Step)
    requires Inv(s) && !s.phase.Finished?
    requires forall i :: 0 <= i < |s.runners| ==> !s.runners[i].Running?
    requires s.runners == [] ==> s.parentDone
    ensures Enabled(s, step) && !step.CancelParent? && !step.Return?
  {
    if i :| 0 <= i < |s.runners| && !s.runners[i].Exited? {
      match s.runners[i]
      case Returning(_) => step := Observe(i);
      case Sending(_, _) =>
        SendNeverBlocks(s, i);
        step := Send(i);
      case Finishing(_, _) => step := Exit(i);
    } else {
      match s.phase
      case Selecting =>
        if s.parentDone {
          step := SelectParent;
        } else {
          assert HasSent(s.runners[0]) && Logged(Log(s), 0);
          var k :| 0 <= k < |Log(s)| && Log(s)[k].runner == 0;
          assert Log(s) == s.channel;
          step := SelectMessage;
        }
      case Cancelling => step := Cancel;
      case Waiting => step := Join;
      case Draining => step := if s.channel == [] then Finish else Drain;
    }
  }

  // --------------------------------------------------- every run is finite

  function Rank(r: Runner): nat {
    match r
    case Running => 4
    case Returning(_) => 3
    case Sending(_, _) => 2
    case Finishing(_, _) => 1
    case Exited(_, _) => 0
  }

  function Ranks(runners: seq<Runner>): nat {
    if runners == [] then 0 else Rank(runners[0]) + Ranks(runners[1..])
  }

  function PhaseRank(phase: Phase): nat {
    match phase
    case Selecting => 4
    case Cancelling => 3
    case Waiting => 2
    case Draining => 1
    case Finished => 0
  }

  /** Steps left: each runner moves at most four times and is received once. */
  function Measure(s: State): int {
    Ranks(s.runners) + (|s.runners| - |s.consumed|) + PhaseRank(s.phase)
    + (if s.parentDone then 0 else 1) + (if s.runDone then 0 else 1)
  }

  lemma {:induction false} RanksUpdate(runners: seq<Runner>, i: nat, r: Runner)
    requires i < |runners|
    ensures Ranks(runners[i := r]) == Ranks(runners) - Rank(runners[i]) + Rank(r)
  {
    if i == 0 {
      assert runners[i := r][1..] == runners[1..];
    } else {
      assert runners[i := r][1..] == runners[1..][i - 1 := r];
      RanksUpdate(runners[1..], i - 1, r);
    }
  }

  lemma ConsumedIsBounded(s: State)
    requires Inv(s)
    ensures |Log(s)| <= |s.runners|
  {
    DistinctIds(Log(s));
    IndicesAreBelow(|s.runners|);
    Sets.SubsetSize(Ids(Log(s)), Indices(|s.runners|));
  }

  predicate MovesRunner(step: Step) {
    step.Return? || step.Observe? || step.Send? || step.Exit?
  }

  lemma RunnerMoves(s: State, step: Step)
    requires Enabled(s, step)
    ensures Ranks(Apply(s, step).runners) == Ranks(s.runners) - (if MovesRunner(step) then 1 else 0)
  {
    if MovesRunner(step) {
      RanksUpdate(s.runners, step.i, Apply(s, step).runners[step.i]);
    }
  }

  /** Every step uses the measure up, and the measure never goes below zero, so
      no run is longer than the measure of its start. */
  lemma StepsRunOut(s: State, step: Step)
    requires Inv(s) && Enabled(s, step)
    ensures 0 <= Measure(Apply(s, step)) < Measure(s)
  {
    StepKeeps(s, step);
    ConsumedIsBounded(Apply(s, step));
    RunnerMoves(s, step);
  }

  // ------------------------------------------------------------ whole runs

  ghost predicate IsRun(s: State, steps: seq<Step>, end: State)
    decreases |steps|
  {
    if steps == [] then s == end
    else Enabled(s, steps[0]) && IsRun(Apply(s, steps[0]), steps[1..], end)
  }

  lemma {:induction false} RunKeeps(s: State, steps: seq<Step>, end: State)
    requires Inv(s) && IsRun(s, steps, end)
    ensures Inv(end) && |end.runners| == |s.runners|
    ensures |steps| <= Measure(s) - Measure(end)
    decreases |steps|
  {
    if steps != [] {
      StepKeeps(s, steps[0]);
      StepsRunOut(s, steps[0]);
      RunKeeps(Apply(s, steps[0]), steps[1..], end);
    }
  }

  lemma {:induction false} RunCancelsParent(s: State, steps: seq<Step>, end: State)
    requires IsRun(s, steps, end)
    ensures end.parentDone <==> s.parentDone || CancelParent in steps
    decreases |steps|
  {
    if steps != [] {
      RunCancelsParent(Apply(s, steps[0]), steps[1..], end);
      assert steps == [steps[0]] + steps[1..];
    }
  }

  /** The runner ended as a stopped runner should: it saw the run context ended
      and returned nil or the cancellation. */
  predicate StoppedCleanly(r: Runner) {
    r.Exited? && r.stopping && !r.result.ReturnedError?
  }

  /** In every interleaving: when the supervisor returns, every runner has
      exited, each runner's outcome was consumed exactly once, a runner's own error
      is reported exactly when its function failed, the result is nil exactly when
      every runner stopped cleanly, so no runner's error is lost, and a nil result
      means that the parent context was cancelled in the run. From the supervisor's cancel on
      the run context has ended. No run takes more than 5n + 6 steps. */
  lemma SupervisionIsSound(n: nat, steps: seq<Step>, end: State)
    requires IsRun(Start(n), steps, end)
    ensures |steps| <= 5 * n + 6 && (Cancelled(end.phase) ==> end.runDone)
    ensures end.parentDone <==> CancelParent in steps
    ensures end.phase.Finished? ==>
      && |end.runners| == n && |end.consumed| == n && Distinct(end.consumed)
      && (forall i :: 0 <= i < n ==> end.runners[i].Exited?)
      && (forall k :: 0 <= k < n ==>
            && end.consumed[k].runner < n
            && (end.consumed[k].sent.RunnerError? <==> end.runners[end.consumed[k].runner].result.ReturnedError?))
      && (ReturnsNil(end) <==> forall i :: 0 <= i < n ==> StoppedCleanly(end.runners[i]))
      && (ReturnsNil(end) ==> end.parentDone)
  {
    StartIsInv(n);
    RunKeeps(Start(n), steps, end);
    RunCancelsParent(Start(n), steps, end);
    StartRanks(n);
    ConsumedIsBounded(end);
    assert Measure(end) >= 0;
    if end.phase.Finished? {
      assert Log(end) == end.consumed;
      AllSent(end);
      NilMeansClean(end);
      ErrorsAreTheirOwn(end.runners, end.consumed);
    }
  }

  /** The runner has yet to look at the run context, which has ended, or saw it ended. */
  predicate Late(s: State, i: nat) {
    && s.runDone && i < |s.runners|
    && (s.runners[i].Running? || s.runners[i].Returning? || s.runners[i].stopping)
  }

  lemma StepKeepsLate(s: State, step: Step, i: nat)
    requires Late(s, i) && Enabled(s, step)
    ensures Late(Apply(s, step), i)
  {
  }

  lemma {:induction false} RunKeepsLate(s: State, steps: seq<Step>, end: State, i: nat)
    requires Late(s, i) && IsRun(s, steps, end)
    ensures Late(end, i)
    decreases |steps|
  {
    if steps != [] {
      StepKeepsLate(s, steps[0], i);
      RunKeepsLate(Apply(s, steps[0]), steps[1..], end, i);
    }
  }

  ghost predicate Reports(s: State, m: Message) {
    exists k :: 0 <= k < |s.consumed| && s.consumed[k] == m
  }

  /** In every interleaving: a runner that has not looked at the run context when
      the supervisor cancels adds its own error when its function fails, and no
      error when it returns nil or the cancellation. */
  lemma CancelledRunnersStopCleanly(n: nat, before: seq<Step>, s: State, after: seq<Step>, end: State, i: nat)
    requires IsRun(Start(n), before, s) && IsRun(s, after, end)
    requires Cancelled(s.phase) && i < |s.runners| && (s.runners[i].Running? || s.runners[i].Returning?)
    requires end.phase.Finished?
    ensures i < |end.runners| && end.runners[i].Exited?
    ensures Reports(end, Message(i, if end.runners[i].result.ReturnedError? then RunnerError else NoError))
  {
    StartIsInv(n);
    RunKeeps(Start(n), before, s);
    RunKeeps(s, after, end);
    RunKeepsLate(s, after, end, i);
    AllSent(end);
    assert Log(end) == end.consumed;
  }

  lemma NilMeansClean(s: State)
    requires Inv(s) && s.phase.Finished?
    ensures ReturnsNil(s) <==> forall i :: 0 <= i < |s.runners| ==> StoppedCleanly(s.runners[i])
  {
    assert Log(s) == s.consumed;
    if ReturnsNil(s) {
      AllSent(s);
      forall i | 0 <= i < |s.runners|
        ensures StoppedCleanly(s.runners[i])
      {
        NilRunnerIsClean(s, i);
      }
    } else {
      var k :| 0 <= k < |s.consumed| && !s.consumed[k].sent.NoError?;
      ErrorIsNotClean(s.runners, s.consumed, k);
    }
  }

  lemma NilRunnerIsClean(s: State, i: nat)
    requires ReturnsNil(s) && Log(s) == s.consumed && i < |s.runners| && s.runners[i].Exited?
    requires exists k :: 0 <= k < |Log(s)| && Log(s)[k] == Message(i, Report(s.runners[i].result, s.runners[i].stopping))
    ensures StoppedCleanly(s.runners[i])
  {
    var k :| 0 <= k < |Log(s)| && Log(s)[k] == Message(i, Report(s.runners[i].result, s.runners[i].stopping));
    assert s.consumed[k].sent.NoError?;
  }

  lemma ErrorsAreTheirOwn(runners: seq<Runner>, log: seq<Message>)
    requires Faithful(runners, log)
    ensures forall k :: 0 <= k < |log| ==>
              && log[k].runner < |runners| && HasSent(runners[log[k].runner])
              && (log[k].sent.RunnerError? <==> runners[log[k].runner].result.ReturnedError?)
  {
  }

  lemma ErrorIsNotClean(runners: seq<Runner>, log: seq<Message>, k: nat)
    requires Faithful(runners, log) && k < |log| && !log[k].sent.NoError?
    ensures log[k].runner < |runners| && !StoppedCleanly(runners[log[k].runner])
  {
  }

  lemma {:induction false} StartRanks(n: nat)
    ensures Ranks(Start(n).runners) == 4 * n
  {
    if n > 0 {
      StartRanks(n - 1);
      assert Start(n).runners[1..] == Start(n - 1).runners;
    }
  }

  lemma AllSent(s: State)
    requires Inv(s) && forall i :: 0 <= i < |s.runners| ==> s.runners[i].Exited?
    ensures |Log(s)| == |s.runners|
    ensures forall i :: 0 <= i < |s.runners| ==>
              exists k :: 0 <= k < |Log(s)| && Log(s)[k] == Message(i, Report(s.runners[i].result, s.runners[i].stopping))
  {
    var n, log := |s.runners|, Log(s);
    forall i | 0 <= i < n
      ensures exists k :: 0 <= k < |log| && log[k] == Message(i, Report(s.runners[i].result, s.runners[i].stopping))
    {
      assert HasSent(s.runners[i]) && Logged(log, i);
      var k :| 0 <= k < |log| && log[k].runner == i;
      assert log[k] == Message(i, Report(s.runners[i].result, s.runners[i].stopping));
    }
    DistinctIds(log);
    IndicesAreBelow(n);
    forall i | i in Indices(n)
      ensures i in Ids(log)
    {
      assert HasSent(s.runners[i]) && Logged(log, i);
      var k :| 0 <= k < |log| && log[k].runner == i;
    }
    Sets.SubsetSize(Indices(n), Ids(log));
    ConsumedIsBounded(s);
  }
}
