/** Worker host-secret enrollment: any number of processes share one secret file
    under an exclusive file lock. */
module HostSecret {
  import opened Wrappers

  type Pid = nat

  /** The stored secret: what the control plane issued and the recovery roots of
      the process that installed it. */
  datatype Secret = Secret(host: nat, key: nat, roots: nat)

  predicate SameIdentity(a: Secret, b: Secret) {
    a.host == b.host && a.key == b.key
  }

  datatype Pc =
    | Resolving(attempt: nat)
    | AwaitingEnrollLock(attempt: nat)
    | Rechecking(attempt: nat)
    | Enrolling(attempt: nat)
    | Installing(attempt: nat, secret: Secret)
    | Unlocking(attempt: nat, secret: Secret)
    | Authenticating(attempt: nat, secret: Secret)
    | AwaitingRemoveLock(rejected: Secret)
    | Comparing(rejected: Secret)
    | ReleasingAfterCompare
    | Done(secret: Secret)
    | Stopped

  /** The process holds the file lock. */
  predicate Holds(pc: Pc) {
    pc.Rechecking? || pc.Enrolling? || pc.Installing? || pc.Unlocking? || pc.Comparing? || pc.ReleasingAfterCompare?
  }

  datatype Process = Process(roots: nat, pc: Pc)

  /** What has happened to the file. */
  datatype Event = Installed(who: Pid, secret: Secret) | Removed(who: Pid, secret: Secret, rejected: Secret)

  /** `issued` are the secrets the control plane has handed out; `refused` and
      `accepted` the ones it has answered 401 to or authenticated, with the
      process that presented them. */
  datatype State = State(processes: map<Pid, Process>, file: Option<Secret>, lock: Option<Pid>,
                         issued: set<Secret>, refused: set<(Pid, Secret)>, accepted: set<(Pid, Secret)>,
                         history: seq<Event>)

  datatype Verdict = Accepted | Unauthorized | OtherError

  /** One atomic action of a process; `Fail` is any error return or crash, which
      closes the lock file. */
  datatype Action =
    | Spawn(roots: nat)
    | Read
    | Acquire
    | ReadLocked
    | Enroll(host: nat, key: nat)
    | Rename
    | Release
    | Authenticate(verdict: Verdict)
    | CompareAndRemove
    | Fail

  predicate Enabled(s: State, pid: Pid, action: Action) {
    if action.Spawn? then pid !in s.processes
    else
      && pid in s.processes
      && var pc := s.processes[pid].pc;
         match action
         case Read => pc.Resolving?
         case Acquire => (pc.AwaitingEnrollLock? || pc.AwaitingRemoveLock?) && s.lock.None?
         case ReadLocked => pc.Rechecking?
         case Enroll(_, _) => pc.Enrolling?
         case Rename => pc.Installing?
         case Release => pc.Unlocking? || pc.ReleasingAfterCompare?
         case Authenticate(_) => pc.Authenticating?
         case CompareAndRemove => pc.Comparing?
         case Fail => !pc.Done? && !pc.Stopped?
         case Spawn(_) => false
  }

  function Goto(s: State, pid: Pid, pc: Pc): State
    requires pid in s.processes
  {
    s.(processes := s.processes[pid := s.processes[pid].(pc := pc)])
  }

  /** A stored secret is usable when its roots are the configured ones. */
  function Found(p: Process, attempt: nat, secret: Secret): Pc {
    if secret.roots == p.roots then Authenticating(attempt, secret) else Stopped
  }

  /** The control plane's answer is on record. */
  function Answered(s: State, pid: Pid, secret: Secret, verdict: Verdict): State {
    match verdict
    case Accepted => s.(accepted := s.accepted + {(pid, secret)})
    case Unauthorized => s.(refused := s.refused + {(pid, secret)})
    case OtherError => s
  }

  function AfterAuthentication(attempt: nat, secret: Secret, verdict: Verdict): Pc {
    if verdict.Accepted? then Done(secret)
    else if verdict.Unauthorized? && attempt == 1 then AwaitingRemoveLock(secret)
    else Stopped
  }

  function Apply(s: State, pid: Pid, action: Action): State
    requires Enabled(s, pid, action)
  {
    if action.Spawn? then s.(processes := s.processes[pid := Process(action.roots, Resolving(1))])
    else
      var p := s.processes[pid];
      match action
      case Read =>
        if s.file.Some? then Goto(s, pid, Found(p, p.pc.attempt, s.file.value))
        else Goto(s, pid, AwaitingEnrollLock(p.pc.attempt))
      case Acquire =>
        Goto(s.(lock := Some(pid)), pid,
             if p.pc.AwaitingEnrollLock? then Rechecking(p.pc.attempt) else Comparing(p.pc.rejected))
      case ReadLocked =>
        if s.file.Some? then Goto(s, pid, Unlocking(p.pc.attempt, s.file.value)) else Goto(s, pid, Enrolling(p.pc.attempt))
      case Enroll(host, key) =>
        var secret := Secret(host, key, p.roots);
        Goto(s.(issued := s.issued + {secret}), pid, Installing(p.pc.attempt, secret))
      case Rename =>
        Goto(s.(file := Some(p.pc.secret), history := s.history + [Installed(pid, p.pc.secret)]), pid,
             Unlocking(p.pc.attempt, p.pc.secret))
      case Release =>
        Goto(s.(lock := None), pid,
             if p.pc.Unlocking? then Found(p, p.pc.attempt, p.pc.secret) else Resolving(2))
      case Authenticate(verdict) =>
        Goto(Answered(s, pid, p.pc.secret, verdict), pid, AfterAuthentication(p.pc.attempt, p.pc.secret, verdict))
      case CompareAndRemove =>
        if s.file.Some? && SameIdentity(s.file.value, p.pc.rejected) then
          Goto(s.(file := None, history := s.history + [Removed(pid, s.file.value, p.pc.rejected)]), pid, ReleasingAfterCompare)
        else Goto(s, pid, ReleasingAfterCompare)
      case Fail =>
        Goto(if Holds(p.pc) then s.(lock := None) else s, pid, Stopped)
  }

  const START := State(map[], None, None, {}, {}, {}, [])

  /** A run is a sequence of actions by named processes. */
  predicate Legal(s: State, run: seq<(Pid, Action)>)
    decreases |run|
  {
    run == [] || (Enabled(s, run[0].0, run[0].1) && Legal(Apply(s, run[0].0, run[0].1), run[1..]))
  }

  function Run(s: State, run: seq<(Pid, Action)>): State
    requires Legal(s, run)
    decreases |run|
  {
    if run == [] then s else Run(Apply(s, run[0].0, run[0].1), run[1..])
  }

  // ------------------------------------------- the lock protects the file

  /** The lock is held by the one process inside the critical section. */
  ghost predicate Exclusive(s: State) {
    && (s.lock.Some? ==> s.lock.value in s.processes && Holds(s.processes[s.lock.value].pc))
    && (forall pid :: pid in s.processes && Holds(s.processes[pid].pc) ==> s.lock == Some(pid))
  }

  /** While a process enrolls or installs there is no file; until it unlocks, the
      secret it found or installed is the file. */
  ghost predicate SectionKnowsFile(s: State) {
    forall pid :: pid in s.processes ==>
      var pc := s.processes[pid].pc;
      && (pc.Enrolling? || pc.Installing? ==> s.file.None?)
      && (pc.Unlocking? ==> s.file == Some(pc.secret))
  }

  /** The history of the file: installs and removals alternate, a removal takes
      out the secret the install before it put in, and the file is what is left. */
  ghost predicate Alternates(history: seq<Event>, file: Option<Secret>) {
    if history == [] then file.None?
    else
      var before, last := history[..|history| - 1], history[|history| - 1];
      match last
      case Installed(_, secret) => file == Some(secret) && Alternates(before, None)
      case Removed(_, secret, _) => file.None? && Alternates(before, Some(secret))
  }

  ghost predicate Inv(s: State) {
    Exclusive(s) && SectionKnowsFile(s) && Alternates(s.history, s.file)
  }

  lemma StepKeeps(s: State, pid: Pid, action: Action)
    requires Inv(s) && Enabled(s, pid, action)
    ensures Inv(Apply(s, pid, action))
  {
    StepKeepsExclusion(s, pid, action);
    StepKeepsKnowledge(s, pid, action);
    StepAlternates(s, pid, action);
  }

  lemma StepKeepsExclusion(s: State, pid: Pid, action: Action)
    requires Exclusive(s) && Enabled(s, pid, action)
    ensures Exclusive(Apply(s, pid, action))
  {
  }

  lemma StepKeepsKnowledge(s: State, pid: Pid, action: Action)
    requires Exclusive(s) && SectionKnowsFile(s) && Enabled(s, pid, action)
    ensures SectionKnowsFile(Apply(s, pid, action))
  {
  }

  lemma StepAlternates(s: State, pid: Pid, action: Action)
    requires SectionKnowsFile(s) && Alternates(s.history, s.file) && Enabled(s, pid, action)
    ensures Alternates(Apply(s, pid, action).history, Apply(s, pid, action).file)
  {
    var s' := Apply(s, pid, action);
    if |s'.history| > |s.history| {
      assert s'.history[..|s'.history| - 1] == s.history;
    }
  }

  function Installs(history: seq<Event>): nat {
    if history == [] then 0
    else Installs(history[..|history| - 1]) + (if history[|history| - 1].Installed? then 1 else 0)
  }

  function Removals(history: seq<Event>): nat {
    if history == [] then 0
    else Removals(history[..|history| - 1]) + (if history[|history| - 1].Removed? then 1 else 0)
  }

  lemma {:induction false} AlternationCounts(history: seq<Event>, file: Option<Secret>)
    requires Alternates(history, file)
    ensures Installs(history) == Removals(history) + (if file.Some? then 1 else 0)
  {
    if history != [] {
      var last := history[|history| - 1];
      AlternationCounts(history[..|history| - 1], if last.Installed? then None else Some(last.secret));
    }
  }

  // ----------------------------------------- what a process knows is true

  /** The secret a process carries once it has read or installed one. */
  function Carried(pc: Pc): Option<Secret> {
    match pc
    case Unlocking(_, secret) => Some(secret)
    case Authenticating(_, secret) => Some(secret)
    case AwaitingRemoveLock(rejected) => Some(rejected)
    case Comparing(rejected) => Some(rejected)
    case Done(secret) => Some(secret)
    case _ => None
  }

  ghost predicate WasInstalled(history: seq<Event>, secret: Secret) {
    exists k :: 0 <= k < |history| && history[k].Installed? && history[k].secret == secret
  }

  ghost predicate ProcessKnows(s: State, pid: Pid, p: Process) {
    && (Carried(p.pc).Some? ==> WasInstalled(s.history, Carried(p.pc).value))
    && (p.pc.AwaitingRemoveLock? || p.pc.Comparing? ==> (pid, p.pc.rejected) in s.refused)
    && (p.pc.Done? ==> (pid, p.pc.secret) in s.accepted)
    && (p.pc.Authenticating? || p.pc.Done? ==> p.pc.secret.roots == p.roots)
    && (p.pc.Installing? ==> p.pc.secret in s.issued && p.pc.secret.roots == p.roots && !WasInstalled(s.history, p.pc.secret))
  }

  ghost predicate EventKnown(s: State, e: Event) {
    && e.secret in s.issued
    && (e.Removed? ==> e.secret == e.rejected && (e.who, e.rejected) in s.refused)
  }

  /** No two issued secrets share an identity. */
  ghost predicate IssuedApart(s: State) {
    forall a, b :: a in s.issued && b in s.issued && SameIdentity(a, b) ==> a == b
  }

  /** The installs of a history are of different secrets. */
  ghost predicate InstalledOnce(history: seq<Event>) {
    forall i, j :: 0 <= i < j < |history| && history[i].Installed? && history[j].Installed? ==>
      history[i].secret != history[j].secret
  }

  ghost predicate Knows(s: State) {
    && IssuedApart(s)
    && (forall pid :: pid in s.processes ==> ProcessKnows(s, pid, s.processes[pid]))
    && (forall k :: 0 <= k < |s.history| ==> EventKnown(s, s.history[k]))
    && (s.file.Some? ==> WasInstalled(s.history, s.file.value))
    && InstalledOnce(s.history)
  }

  /** The control plane never issues the same host and secret twice. */
  ghost predicate Fresh(s: State, action: Action) {
    action.Enroll? ==> forall a :: a in s.issued ==> !(a.host == action.host && a.key == action.key)
  }

  lemma InstalledStays(history: seq<Event>, more: seq<Event>, secret: Secret)
    requires WasInstalled(history, secret)
    ensures WasInstalled(history + more, secret)
  {
    var k :| 0 <= k < |history| && history[k].Installed? && history[k].secret == secret;
    assert (history + more)[k] == history[k];
  }

  /** What a process knows survives a step of the others. */
  lemma KnowledgeStays(s: State, s': State, more: seq<Event>, pid: Pid, p: Process)
    requires ProcessKnows(s, pid, p)
    requires s.issued <= s'.issued && s.refused <= s'.refused && s.accepted <= s'.accepted && s'.history == s.history + more
    requires p.pc.Installing? ==> forall e :: e in more ==> e.Removed?
    ensures ProcessKnows(s', pid, p)
  {
    if Carried(p.pc).Some? {
      InstalledStays(s.history, more, Carried(p.pc).value);
    }
    assert forall k :: 0 <= k < |s'.history| ==> if k < |s.history| then s'.history[k] == s.history[k] else s'.history[k] in more;
  }

  lemma RenameKnows(s: State, pid: Pid, s': State)
    requires Inv(s) && Knows(s) && Enabled(s, pid, Rename) && s' == Apply(s, pid, Rename)
    ensures Knows(s')
  {
    var more := [Installed(pid, s.processes[pid].pc.secret)];
    assert s'.history[|s.history|] == more[0];
    forall q | q in s'.processes ensures ProcessKnows(s', q, s'.processes[q]) {
      if q != pid {
        KnowledgeStays(s, s', more, q, s.processes[q]);
      }
    }
  }

  /** Two installed secrets with one identity are one secret. */
  lemma InstalledApart(s: State, a: Secret, b: Secret)
    requires Knows(s) && WasInstalled(s.history, a) && WasInstalled(s.history, b) && SameIdentity(a, b)
    ensures a == b && a in s.issued
  {
    var i :| 0 <= i < |s.history| && s.history[i].Installed? && s.history[i].secret == a;
    var j :| 0 <= j < |s.history| && s.history[j].Installed? && s.history[j].secret == b;
    assert EventKnown(s, s.history[i]) && EventKnown(s, s.history[j]);
  }

  lemma RemoveKnows(s: State, pid: Pid, s': State)
    requires Inv(s) && Knows(s) && Enabled(s, pid, CompareAndRemove) && s' == Apply(s, pid, CompareAndRemove)
    ensures Knows(s')
  {
    assert ProcessKnows(s, pid, s.processes[pid]);
    var rejected, more := s.processes[pid].pc.rejected, s'.history[|s.history|..];
    if s.file.Some? && SameIdentity(s.file.value, rejected) {
      InstalledApart(s, s.file.value, rejected);
    }
    assert s'.history == s.history + more;
    forall q | q in s'.processes ensures ProcessKnows(s', q, s'.processes[q]) {
      if q != pid {
        KnowledgeStays(s, s', more, q, s.processes[q]);
      }
    }
  }

  lemma EnrollKnows(s: State, pid: Pid, action: Action, s': State)
    requires Inv(s) && Knows(s) && action.Enroll? && Fresh(s, action)
    requires Enabled(s, pid, action) && s' == Apply(s, pid, action)
    ensures Knows(s')
  {
    var secret := Secret(action.host, action.key, s.processes[pid].roots);
    assert forall k :: 0 <= k < |s.history| ==> EventKnown(s, s.history[k]) && s.history[k].secret != secret;
    assert s'.history == s.history + [];
    forall q | q in s'.processes ensures ProcessKnows(s', q, s'.processes[q]) {
      if q != pid {
        KnowledgeStays(s, s', [], q, s.processes[q]);
      }
    }
  }

  predicate Quiet(action: Action) {
    !action.Rename? && !action.CompareAndRemove? && !action.Enroll?
  }

  lemma QuietFrame(s: State, pid: Pid, action: Action, s': State)
    requires Quiet(action) && Enabled(s, pid, action) && s' == Apply(s, pid, action)
    ensures s'.history == s.history && s'.issued == s.issued && s'.file == s.file && s.refused <= s'.refused && s.accepted <= s'.accepted
    ensures pid in s'.processes
    ensures forall q :: q in s'.processes && q != pid ==> q in s.processes && s'.processes[q] == s.processes[q]
  {
  }

  lemma ActorKnows(s: State, pid: Pid, action: Action, s': State)
    requires Knows(s) && Quiet(action) && Enabled(s, pid, action) && s' == Apply(s, pid, action)
    ensures pid in s'.processes && ProcessKnows(s', pid, s'.processes[pid])
  {
    QuietFrame(s, pid, action, s');
    if !action.Spawn? {
      assert ProcessKnows(s, pid, s.processes[pid]);
    }
  }

  lemma QuietKnows(s: State, pid: Pid, action: Action, s': State)
    requires Knows(s) && Quiet(action) && Enabled(s, pid, action) && s' == Apply(s, pid, action)
    ensures Knows(s')
  {
    QuietFrame(s, pid, action, s');
    ActorKnows(s, pid, action, s');
    QuietRestKnows(s, pid, s');
  }

  lemma QuietRestKnows(s: State, pid: Pid, s': State)
    requires Knows(s)
    requires s'.history == s.history && s'.issued == s.issued && s'.file == s.file && s.refused <= s'.refused && s.accepted <= s'.accepted
    requires pid in s'.processes && ProcessKnows(s', pid, s'.processes[pid])
    requires forall q :: q in s'.processes && q != pid ==> q in s.processes && s'.processes[q] == s.processes[q]
    ensures Knows(s')
  {
    assert s'.history == s.history + [];
    forall q | q in s'.processes ensures ProcessKnows(s', q, s'.processes[q]) {
      if q != pid {
        KnowledgeStays(s, s', [], q, s.processes[q]);
      }
    }
  }

  lemma StepKnows(s: State, pid: Pid, action: Action, s': State)
    requires Inv(s) && Knows(s) && Fresh(s, action)
    requires Enabled(s, pid, action) && s' == Apply(s, pid, action)
    ensures Knows(s')
  {
    match action
    case Rename => RenameKnows(s, pid, s');
    case CompareAndRemove => RemoveKnows(s, pid, s');
    case Enroll(_, _) => EnrollKnows(s, pid, action, s');
    case _ => QuietKnows(s, pid, action, s');
  }

  /** Every enrollment of the run is answered with a new identity. */
  ghost predicate FreshRun(s: State, run: seq<(Pid, Action)>)
    requires Legal(s, run)
    decreases |run|
  {
    run == [] || (Fresh(s, run[0].1) && FreshRun(Apply(s, run[0].0, run[0].1), run[1..]))
  }

  lemma {:induction false} RunKeeps(s: State, run: seq<(Pid, Action)>)
    requires Inv(s) && Legal(s, run)
    ensures Inv(Run(s, run))
    ensures Knows(s) && FreshRun(s, run) ==> Knows(Run(s, run))
    decreases |run|
  {
    if run != [] {
      var s' := Apply(s, run[0].0, run[0].1);
      StepKeeps(s, run[0].0, run[0].1);
      if Knows(s) && FreshRun(s, run) {
        StepKnows(s, run[0].0, run[0].1, s');
      }
      RunKeeps(s', run[1..]);
    }
  }

  // ------------------------------- a refused secret is not presented again

  /** The comparison leaves no file of the rejected identity, and a file of
      another identity as it was. */
  lemma ComparisonClearsTheRejected(s: State, pid: Pid, s': State)
    requires Enabled(s, pid, CompareAndRemove) && s' == Apply(s, pid, CompareAndRemove)
    ensures var rejected := s.processes[pid].pc.rejected;
            && (s'.file.Some? ==> !SameIdentity(s'.file.value, rejected))
            && (s.file.Some? && !SameIdentity(s.file.value, rejected) ==> s'.file == s.file && s'.history == s.history)
  {
  }

  /** The secret has been in the file and is not there now. */
  ghost predicate Gone(s: State, secret: Secret) {
    WasInstalled(s.history, secret) && s.file != Some(secret)
  }

  ghost predicate HistoryGrows(s: State, s': State) {
    exists more :: s'.history == s.history + more
  }

  lemma StepGrowsHistory(s: State, pid: Pid, action: Action, s': State)
    requires Enabled(s, pid, action) && s' == Apply(s, pid, action)
    ensures HistoryGrows(s, s')
  {
    assert s'.history == s.history + s'.history[|s.history|..];
  }

  /** Every install is of a secret that was never there, so what is gone stays gone. */
  lemma GoneStays(s: State, pid: Pid, action: Action, s': State, secret: Secret)
    requires Knows(s) && Enabled(s, pid, action) && s' == Apply(s, pid, action) && Gone(s, secret)
    ensures Gone(s', secret)
  {
    StepGrowsHistory(s, pid, action, s');
    var more :| s'.history == s.history + more;
    InstalledStays(s.history, more, secret);
    if action.Rename? {
      assert ProcessKnows(s, pid, s.processes[pid]);
    }
  }

  /** The process is past the one comparison it makes and has not finished. */
  predicate Retrying(pc: Pc) {
    pc.ReleasingAfterCompare? || (!pc.AwaitingRemoveLock? && !pc.Comparing? && !pc.Done? && !pc.Stopped? && pc.attempt != 1)
  }

  /** What a process was refused: nothing in its first attempt, then the one
      secret it goes to remove, and after that only secrets that are gone. */
  ghost predicate RefusedBefore(s: State, pid: Pid, pc: Pc) {
    forall x :: (pid, x) in s.refused ==>
      && (pc.AwaitingRemoveLock? || pc.Comparing? ==> x == pc.rejected)
      && (Retrying(pc) ==> Gone(s, x))
      && (pc.Authenticating? || pc.Done? ==> x != pc.secret)
      && (pc.AwaitingRemoveLock? || pc.Comparing? || Retrying(pc) || pc.Done? || pc.Stopped?)
  }

  ghost predicate Remembers(s: State, pid: Pid) {
    if pid in s.processes then RefusedBefore(s, pid, s.processes[pid].pc)
    else forall x :: (pid, x) !in s.refused
  }

  /** The steps of a process on its own record, but for the comparison. */
  lemma OwnStepRemembers(s: State, pid: Pid, action: Action, s': State)
    requires Inv(s) && Knows(s) && Remembers(s, pid) && !action.CompareAndRemove?
    requires Enabled(s, pid, action) && s' == Apply(s, pid, action)
    ensures Remembers(s', pid)
  {
    forall x | (pid, x) in s.refused && Gone(s, x)
      ensures Gone(s', x)
    {
      GoneStays(s, pid, action, s', x);
    }
  }

  lemma ComparisonRemembers(s: State, pid: Pid, s': State)
    requires Knows(s) && Remembers(s, pid)
    requires Enabled(s, pid, CompareAndRemove) && s' == Apply(s, pid, CompareAndRemove)
    ensures Remembers(s', pid)
  {
    var rejected := s.processes[pid].pc.rejected;
    assert ProcessKnows(s, pid, s.processes[pid]);
    ComparisonClearsTheRejected(s, pid, s');
    StepGrowsHistory(s, pid, CompareAndRemove, s');
    var more :| s'.history == s.history + more;
    InstalledStays(s.history, more, rejected);
  }

  lemma OtherStepRemembers(s: State, actor: Pid, action: Action, s': State, pid: Pid)
    requires Knows(s) && Remembers(s, pid) && pid != actor
    requires Enabled(s, actor, action) && s' == Apply(s, actor, action)
    ensures Remembers(s', pid)
  {
    assert forall x :: (pid, x) in s'.refused <==> (pid, x) in s.refused;
    forall x | (pid, x) in s.refused && Gone(s, x)
      ensures Gone(s', x)
    {
      GoneStays(s, actor, action, s', x);
    }
  }

  lemma {:induction false} RunRemembers(s: State, run: seq<(Pid, Action)>, pid: Pid)
    requires Inv(s) && Knows(s) && Remembers(s, pid) && Legal(s, run) && FreshRun(s, run)
    ensures Remembers(Run(s, run), pid)
    decreases |run|
  {
    if run != [] {
      var actor, action, s' := run[0].0, run[0].1, Apply(s, run[0].0, run[0].1);
      StepKeeps(s, actor, action);
      StepKnows(s, actor, action, s');
      if actor != pid {
        OtherStepRemembers(s, actor, action, s', pid);
      } else if action.CompareAndRemove? {
        ComparisonRemembers(s, pid, s');
      } else {
        OwnStepRemembers(s, pid, action, s');
      }
      RunRemembers(s', run[1..], pid);
    }
  }

  /** Two secrets of one identity that were both installed are the same. */
  lemma RefusedIdentities(s: State, pid: Pid)
    requires Knows(s) && Remembers(s, pid) && pid in s.processes
    requires s.processes[pid].pc.Authenticating? && s.processes[pid].pc.attempt != 1
    ensures forall x :: (pid, x) in s.refused ==> !SameIdentity(x, s.processes[pid].pc.secret)
  {
    assert ProcessKnows(s, pid, s.processes[pid]);
    forall x | (pid, x) in s.refused
      ensures !SameIdentity(x, s.processes[pid].pc.secret)
    {
      assert Gone(s, x);
      if SameIdentity(x, s.processes[pid].pc.secret) {
        InstalledApart(s, x, s.processes[pid].pc.secret);
        assert false;
      }
    }
  }

  // --------------------------------------------- each process is bounded

  /** How many steps a process may still take. */
  function Rank(pc: Pc): nat {
    match pc
    case Resolving(attempt) => Base(attempt) + 7
    case AwaitingEnrollLock(attempt) => Base(attempt) + 6
    case Rechecking(attempt) => Base(attempt) + 5
    case Enrolling(attempt) => Base(attempt) + 4
    case Installing(attempt, _) => Base(attempt) + 3
    case Unlocking(attempt, _) => Base(attempt) + 2
    case Authenticating(attempt, _) => Base(attempt) + 1
    case AwaitingRemoveLock(_) => 10
    case Comparing(_) => 9
    case ReleasingAfterCompare => 8
    case Done(_) => 0
    case Stopped => 0
  }

  function Base(attempt: nat): nat {
    if attempt == 1 then 10 else 0
  }

  /** How many installs and removals a process may still make. */
  function InstallsLeft(pc: Pc): nat {
    if Rank(pc) >= 13 then 2 else if Rank(pc) >= 3 then 1 else 0
  }

  function RemovalsLeft(pc: Pc): nat {
    if Rank(pc) >= 9 then 1 else 0
  }

  function InstallsBy(history: seq<Event>, pid: Pid): nat {
    if history == [] then 0
    else
      var last := history[|history| - 1];
      InstallsBy(history[..|history| - 1], pid) + (if last.Installed? && last.who == pid then 1 else 0)
  }

  function RemovalsBy(history: seq<Event>, pid: Pid): nat {
    if history == [] then 0
    else
      var last := history[|history| - 1];
      RemovalsBy(history[..|history| - 1], pid) + (if last.Removed? && last.who == pid then 1 else 0)
  }

  ghost predicate WithinBudget(s: State, pid: Pid) {
    if pid in s.processes then
      && InstallsBy(s.history, pid) + InstallsLeft(s.processes[pid].pc) <= 2
      && RemovalsBy(s.history, pid) + RemovalsLeft(s.processes[pid].pc) <= 1
    else
      InstallsBy(s.history, pid) == 0 && RemovalsBy(s.history, pid) == 0
  }

  /** What a step adds to the history. */
  function Recorded(s: State, pid: Pid, action: Action): seq<Event>
    requires Enabled(s, pid, action)
  {
    Apply(s, pid, action).history[|s.history|..]
  }

  lemma StepRecords(s: State, pid: Pid, action: Action, pc: Pc, pc': Pc)
    requires Enabled(s, pid, action) && !action.Spawn?
    requires pc == s.processes[pid].pc && pc' == Apply(s, pid, action).processes[pid].pc
    ensures var more := Recorded(s, pid, action);
            && Apply(s, pid, action).history == s.history + more
            && (more == [] || (|more| == 1 && more[0].who == pid))
            && (more == [] ==> InstallsLeft(pc') <= InstallsLeft(pc) && RemovalsLeft(pc') <= RemovalsLeft(pc))
            && (more != [] && more[0].Installed? ==> InstallsLeft(pc') < InstallsLeft(pc) && RemovalsLeft(pc') <= RemovalsLeft(pc))
            && (more != [] && more[0].Removed? ==> InstallsLeft(pc') <= InstallsLeft(pc) && RemovalsLeft(pc') < RemovalsLeft(pc))
  {
  }

  lemma CountsExtend(history: seq<Event>, e: Event, q: Pid)
    ensures InstallsBy(history + [e], q) == InstallsBy(history, q) + (if e.Installed? && e.who == q then 1 else 0)
    ensures RemovalsBy(history + [e], q) == RemovalsBy(history, q) + (if e.Removed? && e.who == q then 1 else 0)
  {
    assert (history + [e])[..|history|] == history;
  }

  lemma StepSpends(s: State, pid: Pid, action: Action, q: Pid)
    requires Enabled(s, pid, action) && WithinBudget(s, q)
    ensures WithinBudget(Apply(s, pid, action), q)
  {
    if !action.Spawn? {
      StepRecords(s, pid, action, s.processes[pid].pc, Apply(s, pid, action).processes[pid].pc);
      var more := Recorded(s, pid, action);
      if more == [] {
        assert s.history + more == s.history;
      } else {
        assert more == [more[0]];
        CountsExtend(s.history, more[0], q);
      }
      if q != pid {
        StepIsLocal(s, pid, action, q);
      }
    }
  }

  lemma StepIsLocal(s: State, pid: Pid, action: Action, q: Pid)
    requires Enabled(s, pid, action) && q != pid
    ensures var s' := Apply(s, pid, action);
            (q in s'.processes <==> q in s.processes) && (q in s.processes ==> s'.processes[q] == s.processes[q])
  {
  }

  lemma {:induction false} RunSpends(s: State, run: seq<(Pid, Action)>, q: Pid)
    requires Legal(s, run) && WithinBudget(s, q)
    ensures WithinBudget(Run(s, run), q)
    decreases |run|
  {
    if run != [] {
      StepSpends(s, run[0].0, run[0].1, q);
      RunSpends(Apply(s, run[0].0, run[0].1), run[1..], q);
    }
  }

  /** Any process that is not finished can be waited for: some process has a
      step other than failing. */
  ghost predicate CanMove(s: State, pid: Pid) {
    exists action: Action :: !action.Spawn? && !action.Fail? && Enabled(s, pid, action)
  }

  function NextAction(pc: Pc): Action {
    match pc
    case Resolving(_) => Read
    case AwaitingEnrollLock(_) => Acquire
    case AwaitingRemoveLock(_) => Acquire
    case Rechecking(_) => ReadLocked
    case Enrolling(_) => Enroll(0, 0)
    case Installing(_, _) => Rename
    case Unlocking(_, _) => Release
    case ReleasingAfterCompare => Release
    case Authenticating(_, _) => Authenticate(Accepted)
    case Comparing(_) => CompareAndRemove
    case _ => Fail
  }

  lemma NoDeadlock(s: State, pid: Pid) returns (mover: Pid)
    requires Inv(s) && pid in s.processes
    requires !s.processes[pid].pc.Done? && !s.processes[pid].pc.Stopped?
    ensures mover in s.processes && CanMove(s, mover)
  {
    mover := if s.lock.Some? then s.lock.value else pid;
    assert Enabled(s, mover, NextAction(s.processes[mover].pc));
  }

  /** The secret a process ends with when it is left alone and the control plane
      accepts it: the one it has at hand, the file's unless that is the one it was
      refused, or a new one. */
  function Ending(s: State, pid: Pid, host: nat, key: nat): Secret
    requires pid in s.processes
  {
    var p := s.processes[pid];
    if p.pc.Authenticating? || p.pc.Installing? then p.pc.secret
    else if s.file.Some? && !((p.pc.AwaitingRemoveLock? || p.pc.Comparing?) && SameIdentity(s.file.value, p.pc.rejected)) then s.file.value
    else Secret(host, key, p.roots)
  }

  /** The next action of a process that is issued this secret and accepted. */
  function Forward(pc: Pc, host: nat, key: nat): Action {
    if pc.Enrolling? then Enroll(host, key) else NextAction(pc)
  }

  predicate Alive(pc: Pc) {
    !pc.Done? && !pc.Stopped?
  }

  /** Left alone with the lock, every process that trusts its ending's roots gets
      there: enrolling when there is no file, with the file's secret when there is
      one, and with another secret than the one it was refused. */
  lemma {:induction false} LoneProcessFinishes(s: State, pid: Pid, host: nat, key: nat) returns (run: seq<(Pid, Action)>)
    requires Inv(s) && pid in s.processes && Alive(s.processes[pid].pc) && (s.lock.None? || s.lock == Some(pid))
    requires Ending(s, pid, host, key).roots == s.processes[pid].roots
    ensures Legal(s, run) && forall k :: 0 <= k < |run| ==> run[k].0 == pid
    ensures pid in Run(s, run).processes && Run(s, run).processes[pid].pc == Done(Ending(s, pid, host, key))
    ensures Run(s, run).file == if s.processes[pid].pc.Authenticating? then s.file else Some(Ending(s, pid, host, key))
    decreases Rank(s.processes[pid].pc)
  {
    var action := Forward(s.processes[pid].pc, host, key);
    var s' := Apply(s, pid, action);
    StepKeeps(s, pid, action);
    ForwardKeeps(s, pid, host, key, s');
    if s.processes[pid].pc.Authenticating? {
      run := [(pid, action)];
      assert run[1..] == [];
    } else {
      var rest := LoneProcessFinishes(s', pid, host, key);
      run := [(pid, action)] + rest;
      assert run[1..] == rest;
    }
  }

  lemma ForwardKeeps(s: State, pid: Pid, host: nat, key: nat, s': State)
    requires Inv(s) && pid in s.processes && Alive(s.processes[pid].pc) && (s.lock.None? || s.lock == Some(pid))
    requires Ending(s, pid, host, key).roots == s.processes[pid].roots
    requires Enabled(s, pid, Forward(s.processes[pid].pc, host, key)) && s' == Apply(s, pid, Forward(s.processes[pid].pc, host, key))
    ensures pid in s'.processes && (s'.lock.None? || s'.lock == Some(pid))
    ensures s.processes[pid].pc.Authenticating? ==> s'.processes[pid].pc == Done(s.processes[pid].pc.secret) && s'.file == s.file
    ensures !s.processes[pid].pc.Authenticating? ==>
              && Alive(s'.processes[pid].pc) && Rank(s'.processes[pid].pc) < Rank(s.processes[pid].pc)
              && Ending(s', pid, host, key) == Ending(s, pid, host, key) && s'.processes[pid].roots == s.processes[pid].roots
              && (s'.processes[pid].pc.Authenticating? ==> s'.file == Some(Ending(s, pid, host, key)))
  {
  }

  // --------------------------------------------------------- over all runs

  /** From an empty directory, whatever the processes do and wherever they fail:
      the installs are the removals plus the secret that is there, and no process
      installs more than twice or removes more than once. */
  lemma EnrollmentIsConserved(run: seq<(Pid, Action)>, pid: Pid)
    requires Legal(START, run)
    ensures var s := Run(START, run);
            && Installs(s.history) == Removals(s.history) + (if s.file.Some? then 1 else 0)
            && InstallsBy(s.history, pid) <= 2 && RemovalsBy(s.history, pid) <= 1
            && Inv(s)
  {
    RunKeeps(START, run);
    RunSpends(START, run, pid);
    AlternationCounts(Run(START, run).history, Run(START, run).file);
  }

  /** When identities are fresh, a process only ever removes the very secret the
      control plane refused it, every secret is installed at most once, and a
      process finishes only with an installed secret of its own roots that the
      control plane accepted from it. */
  lemma OnlyRefusedSecretsAreRemoved(run: seq<(Pid, Action)>)
    requires Legal(START, run) && FreshRun(START, run)
    ensures var s := Run(START, run);
            && (forall k :: 0 <= k < |s.history| && s.history[k].Removed? ==>
                  s.history[k].secret == s.history[k].rejected && (s.history[k].who, s.history[k].secret) in s.refused)
            && InstalledOnce(s.history)
            && (forall pid :: pid in s.processes && s.processes[pid].pc.Done? ==>
                  var secret := s.processes[pid].pc.secret;
                  WasInstalled(s.history, secret) && (pid, secret) in s.accepted && secret.roots == s.processes[pid].roots)
  {
    RunKeeps(START, run);
    var s := Run(START, run);
    assert forall k :: 0 <= k < |s.history| ==> EventKnown(s, s.history[k]);
    assert forall pid :: pid in s.processes ==> ProcessKnows(s, pid, s.processes[pid]);
  }

  /** When identities are fresh, the second attempt of a process never presents
      a secret of an identity it was refused: the first attempt was refused
      nothing before, and the retry comes with another identity. A process that
      finishes was never refused the secret it finished with. */
  lemma RefusedSecretsAreNotRetried(run: seq<(Pid, Action)>, pid: Pid)
    requires Legal(START, run) && FreshRun(START, run)
    requires pid in Run(START, run).processes
    ensures var s, pc := Run(START, run), Run(START, run).processes[pid].pc;
            && (pc.Authenticating? ==> forall x :: (pid, x) in s.refused ==> pc.attempt != 1 && !SameIdentity(x, pc.secret))
            && (pc.Done? ==> (pid, pc.secret) !in s.refused)
  {
    RunKeeps(START, run);
    RunRemembers(START, run, pid);
    var s := Run(START, run);
    if s.processes[pid].pc.Authenticating? && s.processes[pid].pc.attempt != 1 {
      RefusedIdentities(s, pid);
    }
  }

  /** Racing processes that are never refused enroll once between them and all
      finish with that one secret. */
  lemma UnrefusedProcessesShareOneSecret(run: seq<(Pid, Action)>, p: Pid, q: Pid)
    requires Legal(START, run) && FreshRun(START, run)
    requires Run(START, run).refused == {}
    ensures |Run(START, run).history| <= 1
    ensures var s := Run(START, run);
            p in s.processes && q in s.processes && s.processes[p].pc.Done? && s.processes[q].pc.Done?
            ==> s.processes[p].pc.secret == s.processes[q].pc.secret && s.file == Some(s.processes[p].pc.secret)
  {
    RunKeeps(START, run);
    var s := Run(START, run);
    assert forall k :: 0 <= k < |s.history| ==> EventKnown(s, s.history[k]);
    NoRemovalsMeansOneInstall(s.history, s.file);
    assert p in s.processes ==> ProcessKnows(s, p, s.processes[p]);
    assert q in s.processes ==> ProcessKnows(s, q, s.processes[q]);
  }

  lemma NoRemovalsMeansOneInstall(history: seq<Event>, file: Option<Secret>)
    requires Alternates(history, file) && forall k :: 0 <= k < |history| ==> history[k].Installed?
    ensures |history| <= 1
    ensures history != [] ==> file == Some(history[0].secret)
  {
  }

  /** The steps of one process in a run. */
  function StepsOf(run: seq<(Pid, Action)>, pid: Pid): nat {
    if run == [] then 0 else (if run[0].0 == pid then 1 else 0) + StepsOf(run[1..], pid)
  }

  function Remaining(s: State, pid: Pid): nat {
    if pid in s.processes then Rank(s.processes[pid].pc) else 18
  }

  /** No process takes more than eighteen steps, its start included. */
  lemma {:induction false} StepsRunOut(s: State, run: seq<(Pid, Action)>, pid: Pid)
    requires Legal(s, run)
    ensures StepsOf(run, pid) <= Remaining(s, pid)
    decreases |run|
  {
    if run != [] {
      var s' := Apply(s, run[0].0, run[0].1);
      StepsRunOut(s', run[1..], pid);
      RankFalls(s, run[0].0, run[0].1, pid);
    }
  }

  lemma RankFalls(s: State, actor: Pid, action: Action, pid: Pid)
    requires Enabled(s, actor, action)
    ensures Remaining(Apply(s, actor, action), pid) + (if actor == pid then 1 else 0) <= Remaining(s, pid)
  {
  }
}
