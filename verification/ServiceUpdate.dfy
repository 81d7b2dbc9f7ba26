/** Service updates on a disposable host profile: the pending marker, the ordered
    writes behind it, and interruption between any two of them. */
module ServiceUpdate {
  import opened Wrappers

  type Bytes = seq<int>
  type Digest = string

  const CONTROL_PLANE := "control-plane"
  const DISPATCHER := "dispatcher"

  datatype Inputs = Inputs(controlPlane: Digest, dispatcher: Digest, worker: Digest, guestd: Digest,
                           runtimeSupport: Digest, schema: Digest, toolchain: string)

  /** A candidate or installed manifest. */
  datatype Manifest = Manifest(commit: string, binaries: map<string, Digest>, sourceDigest: Digest, inputs: Inputs)

  /** A directory holding a candidate and its files. */
  datatype Directory = Directory(candidate: Manifest, files: map<string, Bytes>, source: Bytes)

  predicate Hex(s: string, size: nat) {
    |s| == size && forall i :: 0 <= i < |s| ==> '0' <= s[i] <= '9' || 'a' <= s[i] <= 'f'
  }

  /** `read_candidate` accepts the directory. */
  predicate Readable(digest: Bytes -> Digest, d: Directory) {
    && var c := d.candidate;
       && Hex(c.commit, 40)
       && (forall name :: name in [CONTROL_PLANE, DISPATCHER] ==>
             name in d.files && name in c.binaries && digest(d.files[name]) == c.binaries[name])
       && digest(d.source) == c.sourceDigest
       && Hex(c.inputs.controlPlane, 64) && Hex(c.inputs.dispatcher, 64) && Hex(c.inputs.worker, 64)
       && Hex(c.inputs.guestd, 64) && Hex(c.inputs.runtimeSupport, 64) && Hex(c.inputs.schema, 64)
       && "go" <= c.inputs.toolchain
  }

  /** The inputs of everything an update does not replace. */
  predicate SameRuntime(a: Inputs, b: Inputs) {
    a.worker == b.worker && a.guestd == b.guestd && a.runtimeSupport == b.runtimeSupport && a.toolchain == b.toolchain
  }

  /** The services an update replaces, or a refusal. */
  function UpdateKind(previous: Manifest, candidate: Manifest, reset: bool, includeDispatcher: bool): (r: Result<seq<string>, string>)
    ensures r.Success? <==>
      && SameRuntime(previous.inputs, candidate.inputs)
      && (!reset ==> previous.inputs.schema == candidate.inputs.schema)
      && (!reset && !includeDispatcher ==> previous.inputs.dispatcher == candidate.inputs.dispatcher)
    ensures r.Success? ==> CONTROL_PLANE in r.value && forall name :: name in r.value ==> name in [CONTROL_PLANE, DISPATCHER]
    ensures r.Success? ==> (DISPATCHER in r.value <==> reset || includeDispatcher)
  {
    var p, c := previous.inputs, candidate.inputs;
    if p.worker != c.worker || p.guestd != c.guestd || p.runtimeSupport != c.runtimeSupport || p.toolchain != c.toolchain then
      Failure("inputs changed; materialize matching artifacts in a new profile")
    else if !reset && p.schema != c.schema then Failure("schema content changed")
    else if !reset && !includeDispatcher && p.dispatcher != c.dispatcher then Failure("dispatcher inputs changed")
    else Success(if reset || includeDispatcher then [CONTROL_PLANE, DISPATCHER] else [CONTROL_PLANE])
  }

  /** What the host keeps between operations. */
  datatype Profile = Profile(pending: bool, bytes: map<string, Bytes>, installed: Manifest,
                             hashes: map<string, Digest>, schema: Digest)

  /** One atomic write of the profile. */
  datatype Write =
    | Mark
    | SetGeneration(schema: Digest)
    | ReplaceBinary(name: string, content: Bytes)
    | SetInstalled(manifest: Manifest)
    | SetHashes(hashes: map<string, Digest>)
    | Unmark

  function Written(p: Profile, w: Write): Profile {
    match w
    case Mark => p.(pending := true)
    case SetGeneration(schema) => p.(schema := schema)
    case ReplaceBinary(name, content) => p.(bytes := p.bytes[name := content])
    case SetInstalled(manifest) => p.(installed := manifest)
    case SetHashes(hashes) => p.(hashes := hashes)
    case Unmark => p.(pending := false)
  }

  function AllWritten(p: Profile, writes: seq<Write>): Profile {
    if writes == [] then p else Written(AllWritten(p, writes[..|writes| - 1]), writes[|writes| - 1])
  }

  /** The four records of what is installed say the same thing. */
  ghost predicate Agree(digest: Bytes -> Digest, p: Profile) {
    && (forall name :: name in [CONTROL_PLANE, DISPATCHER] ==>
          && name in p.bytes && name in p.installed.binaries && name in p.hashes
          && digest(p.bytes[name]) == p.installed.binaries[name] == p.hashes[name])
    && p.schema == p.installed.inputs.schema
  }

  ghost predicate Guarded(digest: Bytes -> Digest, p: Profile) {
    p.pending || Agree(digest, p)
  }

  function Chosen(binaries: map<string, Digest>, names: seq<string>): map<string, Digest> {
    map name | name in binaries && name in names :: binaries[name]
  }

  function InstalledManifest(previous: Manifest, candidate: Manifest, names: seq<string>, reset: bool): Manifest {
    if reset then candidate else candidate.(binaries := previous.binaries + Chosen(candidate.binaries, names))
  }

  function Replacements(names: seq<string>, files: map<string, Bytes>): seq<Write> {
    if names == [] then []
    else
      var last := names[|names| - 1];
      Replacements(names[..|names| - 1], files) + [ReplaceBinary(last, if last in files then files[last] else [])]
  }

  /** The writes of an update that reaches its end, in order. */
  function Plan(p: Profile, attempt: Directory, names: seq<string>, reset: bool): seq<Write> {
    var installed := InstalledManifest(p.installed, attempt.candidate, names, reset);
    [Mark] + (if reset then [SetGeneration(attempt.candidate.inputs.schema)] else [])
    + Replacements(names, attempt.files)
    + [SetInstalled(installed), SetHashes(p.hashes + installed.binaries), Unmark]
  }

  datatype Outcome = Refused | Interrupted | Complete

  predicate BytesMatch(digest: Bytes -> Digest, p: Profile, names: seq<string>) {
    forall name :: name in names ==>
      name in p.bytes && name in p.installed.binaries && digest(p.bytes[name]) == p.installed.binaries[name]
  }

  /** Everything checked before the marker is written: the candidate directory,
      then its private copy, which is what gets installed. */
  predicate Admits(digest: Bytes -> Digest, p: Profile, directory: Directory, attempt: Directory, reset: bool, includeDispatcher: bool) {
    var names := UpdateKind(p.installed, attempt.candidate, reset, includeDispatcher);
    && Readable(digest, directory) && UpdateKind(p.installed, directory.candidate, reset, includeDispatcher).Success?
    && !p.pending
    && Readable(digest, attempt) && names.Success?
    && BytesMatch(digest, p, names.value)
    && p.schema == p.installed.inputs.schema
  }

  /** The profile after an update interrupted once `budget` writes were made. */
  function Applied(digest: Bytes -> Digest, p: Profile, directory: Directory, attempt: Directory, reset: bool,
                   includeDispatcher: bool, budget: nat): (Outcome, Profile) {
    if !Admits(digest, p, directory, attempt, reset, includeDispatcher) then (Refused, p)
    else
      var plan := Plan(p, attempt, UpdateKind(p.installed, attempt.candidate, reset, includeDispatcher).value, reset);
      if budget < |plan| then (Interrupted, AllWritten(p, plan[..budget])) else (Complete, AllWritten(p, plan))
  }

  /** The i-th replacement. */
  function Replacement(names: seq<string>, files: map<string, Bytes>, i: nat): Write
    requires i < |names|
  {
    ReplaceBinary(names[i], if names[i] in files then files[names[i]] else [])
  }

  /** The plan opens with the marker, replaces from `k` on, then records and unmarks. */
  ghost predicate PlanIs(plan: seq<Write>, k: nat, files: map<string, Bytes>, names: seq<string>, reset: bool, schema: Digest,
                         installed: Manifest, hashes: map<string, Digest>) {
    && k == (if reset then 2 else 1) && |plan| == k + |names| + 3
    && plan[0] == Mark && (reset ==> plan[1] == SetGeneration(schema))
    && (forall i :: 0 <= i < |names| ==> plan[k + i] == Replacement(names, files, i))
    && plan[k + |names|] == SetInstalled(installed)
    && plan[k + |names| + 1] == SetHashes(hashes)
    && plan[k + |names| + 2] == Unmark
  }

  lemma PlanShape(p: Profile, attempt: Directory, names: seq<string>, reset: bool) returns (k: nat)
    ensures var installed := InstalledManifest(p.installed, attempt.candidate, names, reset);
            PlanIs(Plan(p, attempt, names, reset), k, attempt.files, names, reset, attempt.candidate.inputs.schema,
                   installed, p.hashes + installed.binaries)
  {
    k := if reset then 2 else 1;
    var installed := InstalledManifest(p.installed, attempt.candidate, names, reset);
    var opening := [Mark] + (if reset then [SetGeneration(attempt.candidate.inputs.schema)] else []);
    var closing := [SetInstalled(installed), SetHashes(p.hashes + installed.binaries), Unmark];
    ReplacementsShape(names, attempt.files);
    PartsArePlan(opening, Replacements(names, attempt.files), closing, k, attempt.files, names, reset,
                 attempt.candidate.inputs.schema, installed, p.hashes + installed.binaries);
  }

  lemma PartsArePlan(opening: seq<Write>, replacing: seq<Write>, closing: seq<Write>, k: nat, files: map<string, Bytes>,
                     names: seq<string>, reset: bool, schema: Digest, installed: Manifest, hashes: map<string, Digest>)
    requires opening == [Mark] + (if reset then [SetGeneration(schema)] else []) && k == |opening|
    requires |replacing| == |names| && forall i :: 0 <= i < |names| ==> replacing[i] == Replacement(names, files, i)
    requires closing == [SetInstalled(installed), SetHashes(hashes), Unmark]
    ensures PlanIs(opening + replacing + closing, k, files, names, reset, schema, installed, hashes)
  {
    var plan := opening + replacing + closing;
    assert plan[..k] == opening && plan[k..k + |names|] == replacing && plan[k + |names|..] == closing;
    assert plan[0] == opening[0] && (reset ==> plan[1] == opening[1]);
    forall i | 0 <= i < |names| ensures plan[k + i] == Replacement(names, files, i) {
      assert plan[k + i] == replacing[i];
    }
    ThreeLast(opening + replacing, closing);
  }

  lemma ThreeLast(front: seq<Write>, closing: seq<Write>)
    requires |closing| == 3
    ensures var all, n := front + closing, |front|;
            all[n] == closing[0] && all[n + 1] == closing[1] && all[n + 2] == closing[2]
  {
  }

  lemma {:induction false} ReplacementsShape(names: seq<string>, files: map<string, Bytes>)
    ensures |Replacements(names, files)| == |names|
    ensures forall i :: 0 <= i < |names| ==> Replacements(names, files)[i] == Replacement(names, files, i)
  {
    if names != [] {
      var front := names[..|names| - 1];
      ReplacementsShape(front, files);
      assert forall i :: 0 <= i < |front| ==> Replacement(front, files, i) == Replacement(names, files, i);
    }
  }

  /** The host profile on disk; `budget` is how many writes happen before the
      process is interrupted by a crash or an exception. */
  class Host {
    var profile: Profile
    var budget: nat

    constructor (profile: Profile, budget: nat)
      ensures this.profile == profile && this.budget == budget
    {
      this.profile := profile;
      this.budget := budget;
    }

    /** Makes one write, the next of the plan, unless interrupted before it. */
    method Perform(w: Write, ghost start: Profile, ghost plan: seq<Write>, ghost k: nat) returns (ok: bool)
      requires k < |plan| && plan[k] == w && profile == AllWritten(start, plan[..k])
      modifies this
      ensures ok == (old(budget) > 0)
      ensures ok ==> profile == AllWritten(start, plan[..k + 1]) && budget == old(budget) - 1
      ensures !ok ==> profile == old(profile) && budget == 0
    {
      if budget == 0 {
        return false;
      }
      budget := budget - 1;
      profile := Written(profile, w);
      assert plan[..k + 1][..k] == plan[..k];
      return true;
    }

    /** Replaces the binaries of the named services, writes `k` onwards of the plan. */
    method ReplaceBinaries(files: map<string, Bytes>, names: seq<string>, ghost start: Profile, ghost plan: seq<Write>, ghost k: nat)
      returns (ok: bool)
      requires k + |names| <= |plan| && profile == AllWritten(start, plan[..k])
      requires forall i :: 0 <= i < |names| ==> plan[k + i] == Replacement(names, files, i)
      modifies this
      ensures ok == (old(budget) >= |names|)
      ensures ok ==> profile == AllWritten(start, plan[..k + |names|]) && budget == old(budget) - |names|
      ensures !ok ==> profile == AllWritten(start, plan[..k + old(budget)])
    {
      var i := 0;
      while i < |names|
        invariant 0 <= i <= |names|
        invariant profile == AllWritten(start, plan[..k + i]) && budget + i == old(budget)
      {
        ok := Perform(Replacement(names, files, i), start, plan, k + i);
        if !ok { return; }
        i := i + 1;
      }
      ok := true;
    }

    /** Marks the profile and, for a reset, starts a new data generation. */
    method Begin(schema: Digest, reset: bool, ghost start: Profile, ghost plan: seq<Write>) returns (ok: bool)
      requires |plan| >= 2 && profile == start && plan[0] == Mark && (reset ==> plan[1] == SetGeneration(schema))
      modifies this
      ensures var k := if reset then 2 else 1;
              && ok == (old(budget) >= k)
              && (ok ==> profile == AllWritten(start, plan[..k]) && budget == old(budget) - k)
              && (!ok ==> profile == AllWritten(start, plan[..old(budget)]))
    {
      ok := Perform(Mark, start, plan, 0);
      if ok && reset {
        ok := Perform(SetGeneration(schema), start, plan, 1);
      }
    }

    /** Records what was installed and removes the marker. */
    method Finish(installed: Manifest, hashes: map<string, Digest>, ghost start: Profile, ghost plan: seq<Write>, ghost k: nat)
      returns (ok: bool)
      requires k + 3 == |plan| && profile == AllWritten(start, plan[..k])
      requires plan[k] == SetInstalled(installed) && plan[k + 1] == SetHashes(hashes) && plan[k + 2] == Unmark
      modifies this
      ensures ok == (old(budget) >= 3)
      ensures profile == AllWritten(start, if ok then plan else plan[..k + old(budget)])
    {
      ok := Perform(SetInstalled(installed), start, plan, k);
      if ok {
        ok := Perform(SetHashes(hashes), start, plan, k + 1);
      }
      if ok {
        ok := Perform(Unmark, start, plan, k + 2);
      }
      assert plan[..k + 3] == plan;
    }

    /** The writes of an admitted update. */
    method Update(attempt: Directory, names: seq<string>, reset: bool) returns (ok: bool)
      modifies this
      ensures var plan := Plan(old(profile), attempt, names, reset);
              && ok == (old(budget) >= |plan|)
              && profile == AllWritten(old(profile), if ok then plan else plan[..old(budget)])
    {
      var previous, previousHashes := profile.installed, profile.hashes;
      ghost var start, plan := profile, Plan(profile, attempt, names, reset);
      ghost var k := PlanShape(start, attempt, names, reset);
      ok := Begin(attempt.candidate.inputs.schema, reset, start, plan);
      if ok {
        ok := ReplaceBinaries(attempt.files, names, start, plan, k);
      }
      if ok {
        var installed := InstalledManifest(previous, attempt.candidate, names, reset);
        ok := Finish(installed, previousHashes + installed.binaries, start, plan, k + |names|);
      }
    }

    method ApplyServices(digest: Bytes -> Digest, directory: Directory, attempt: Directory, reset: bool, includeDispatcher: bool)
      returns (outcome: Outcome)
      modifies this
      ensures (outcome, profile) == Applied(digest, old(profile), directory, attempt, reset, includeDispatcher, old(budget))
    {
      if !Readable(digest, directory) || UpdateKind(profile.installed, directory.candidate, reset, includeDispatcher).Failure? {
        return Refused;
      }
      if profile.pending || !Readable(digest, attempt) {
        return Refused;
      }
      var kind := UpdateKind(profile.installed, attempt.candidate, reset, includeDispatcher);
      if kind.Failure? || !BytesMatch(digest, profile, kind.value) || profile.schema != profile.installed.inputs.schema {
        return Refused;
      }
      var ok := Update(attempt, kind.value, reset);
      outcome := if ok then Complete else Interrupted;
    }

    /** Starting the services refuses while an update is pending, so from a guarded
        profile a start that goes ahead finds the records in agreement. */
    method Start(ghost digest: Bytes -> Digest) returns (r: Result<(), string>)
      ensures (r.Success?, profile) == Operated(digest, profile, StartServices)
      ensures r.Success? && Guarded(digest, profile) ==> Agree(digest, profile)
    {
      if profile.pending {
        return Failure("incomplete update; recreate this disposable environment before starting");
      }
      return Success(());
    }
  }

  // --------------------------------------------- interrupted and complete

  lemma {:induction false} WrittenInTurn(p: Profile, first: seq<Write>, second: seq<Write>)
    ensures AllWritten(p, first + second) == AllWritten(AllWritten(p, first), second)
    decreases |second|
  {
    if second == [] {
      assert first + second == first;
    } else {
      var front := second[..|second| - 1];
      WrittenInTurn(p, first, front);
      assert (first + second)[..|first + second| - 1] == first + front;
    }
  }

  /** From the first write to the last but one, the marker is present. */
  lemma {:induction false} MarkedWhileUnderWay(p: Profile, plan: seq<Write>, k: nat)
    requires 1 <= k <= |plan| && plan[0] == Mark && forall i :: 0 < i < k ==> plan[i] != Unmark
    ensures AllWritten(p, plan[..k]).pending
    decreases k
  {
    assert plan[..k][..k - 1] == plan[..k - 1];
    if k > 1 {
      MarkedWhileUnderWay(p, plan, k - 1);
    }
  }

  /** Exactly the named binaries are replaced, with the files of the attempt. */
  ghost predicate BytesReplaced(before: map<string, Bytes>, after: map<string, Bytes>, names: seq<string>, files: map<string, Bytes>) {
    && (forall name :: name in names && name in files ==> name in after && after[name] == files[name])
    && (forall name :: name !in names ==> (name in after <==> name in before) && (name in before ==> after[name] == before[name]))
  }

  lemma {:induction false} ReplacementsWritten(p: Profile, names: seq<string>, files: map<string, Bytes>)
    ensures var after := AllWritten(p, Replacements(names, files));
            && BytesReplaced(p.bytes, after.bytes, names, files)
            && after == p.(bytes := after.bytes)
  {
    if names != [] {
      var front, last := names[..|names| - 1], names[|names| - 1];
      assert names == front + [last];
      ReplacementsWritten(p, front, files);
      var writes := Replacements(names, files);
      assert writes[..|writes| - 1] == Replacements(front, files);
    }
  }

  lemma PlanWritten(p: Profile, attempt: Directory, names: seq<string>, reset: bool)
    ensures var after, candidate := AllWritten(p, Plan(p, attempt, names, reset)), attempt.candidate;
            var installed := InstalledManifest(p.installed, candidate, names, reset);
            && BytesReplaced(p.bytes, after.bytes, names, attempt.files)
            && after == Profile(false, after.bytes, installed, p.hashes + installed.binaries,
                                if reset then candidate.inputs.schema else p.schema)
  {
    var installed := InstalledManifest(p.installed, attempt.candidate, names, reset);
    var opening := [Mark] + (if reset then [SetGeneration(attempt.candidate.inputs.schema)] else []);
    var replacing := Replacements(names, attempt.files);
    var closing := [SetInstalled(installed), SetHashes(p.hashes + installed.binaries), Unmark];
    WrittenInTurn(p, opening + replacing, closing);
    WrittenInTurn(p, opening, replacing);
    OpeningWritten(p, opening, attempt.candidate.inputs.schema, reset);
    ReplacementsWritten(AllWritten(p, opening), names, attempt.files);
    ClosingWritten(AllWritten(p, opening + replacing), installed, p.hashes + installed.binaries);
  }

  lemma OpeningWritten(p: Profile, opening: seq<Write>, schema: Digest, reset: bool)
    requires opening == [Mark] + (if reset then [SetGeneration(schema)] else [])
    ensures AllWritten(p, opening) == p.(pending := true, schema := if reset then schema else p.schema)
  {
    if reset {
      WrittenInTurn(p, [Mark], [SetGeneration(schema)]);
    }
  }

  lemma ClosingWritten(p: Profile, installed: Manifest, hashes: map<string, Digest>)
    ensures AllWritten(p, [SetInstalled(installed), SetHashes(hashes), Unmark])
         == p.(pending := false, installed := installed, hashes := hashes)
  {
    WrittenInTurn(p, [SetInstalled(installed)], [SetHashes(hashes), Unmark]);
    WrittenInTurn(p.(installed := installed), [SetHashes(hashes)], [Unmark]);
    assert [SetInstalled(installed)] + [SetHashes(hashes), Unmark] == [SetInstalled(installed), SetHashes(hashes), Unmark];
    assert [SetHashes(hashes)] + [Unmark] == [SetHashes(hashes), Unmark];
  }

  lemma CompleteUpdateAgrees(digest: Bytes -> Digest, p: Profile, directory: Directory, attempt: Directory, reset: bool,
                             includeDispatcher: bool, names: seq<string>)
    requires Agree(digest, p) && Admits(digest, p, directory, attempt, reset, includeDispatcher)
    requires names == UpdateKind(p.installed, attempt.candidate, reset, includeDispatcher).value
    ensures var after := AllWritten(p, Plan(p, attempt, names, reset));
            Agree(digest, after) && !after.pending && after.installed.inputs == attempt.candidate.inputs
  {
    PlanWritten(p, attempt, names, reset);
    var after := AllWritten(p, Plan(p, attempt, names, reset));
    forall name | name in [CONTROL_PLANE, DISPATCHER]
      ensures name in after.bytes && name in after.installed.binaries && name in after.hashes
      ensures digest(after.bytes[name]) == after.installed.binaries[name] == after.hashes[name]
    {
      assert name in names || (!reset && name in p.bytes && digest(p.bytes[name]) == p.installed.binaries[name]);
    }
  }

  lemma InterruptedUpdateIsMarked(p: Profile, attempt: Directory, names: seq<string>, reset: bool, budget: nat)
    requires budget < |Plan(p, attempt, names, reset)|
    ensures var after := AllWritten(p, Plan(p, attempt, names, reset)[..budget]);
            if budget == 0 then after == p else after.pending
  {
    var k := PlanShape(p, attempt, names, reset);
    if budget > 0 {
      var plan := Plan(p, attempt, names, reset);
      forall i | 0 < i < budget ensures plan[i] != Unmark {
        var j := i - k;
        assert 0 <= j < |names| ==> plan[k + j] == Replacement(names, attempt.files, j);
      }
      MarkedWhileUnderWay(p, plan, budget);
    }
  }

  /** An update interrupted after any number of writes leaves the marker or
      agreement; one that completes leaves agreement, the named binaries replaced
      by the attempt's files and every other binary as it was. */
  lemma UpdateIsGuarded(digest: Bytes -> Digest, p: Profile, directory: Directory, attempt: Directory, reset: bool,
                        includeDispatcher: bool, budget: nat)
    requires Guarded(digest, p)
    ensures var (outcome, after) := Applied(digest, p, directory, attempt, reset, includeDispatcher, budget);
            && Guarded(digest, after)
            && (p.pending ==> outcome == Refused)
            && (outcome == Refused ==> after == p)
            && (outcome == Interrupted && budget > 0 ==> after.pending)
            && (outcome == Complete ==> !after.pending && after.installed.inputs == attempt.candidate.inputs)
  {
    if Admits(digest, p, directory, attempt, reset, includeDispatcher) {
      var names := UpdateKind(p.installed, attempt.candidate, reset, includeDispatcher).value;
      if budget < |Plan(p, attempt, names, reset)| {
        InterruptedUpdateIsMarked(p, attempt, names, reset, budget);
      } else {
        CompleteUpdateAgrees(digest, p, directory, attempt, reset, includeDispatcher, names);
      }
    }
  }

  /** The update replaces this service. */
  predicate Replaces(name: string, reset: bool, includeDispatcher: bool) {
    name == CONTROL_PLANE || (name == DISPATCHER && (reset || includeDispatcher))
  }

  lemma KindReplaces(previous: Manifest, candidate: Manifest, reset: bool, includeDispatcher: bool, name: string)
    requires UpdateKind(previous, candidate, reset, includeDispatcher).Success?
    ensures name in UpdateKind(previous, candidate, reset, includeDispatcher).value <==> Replaces(name, reset, includeDispatcher)
  {
  }

  /** A completed update runs the attempt's bytes for each service it replaces and
      keeps the bytes and the recorded digests of everything else. */
  ghost predicate InstallsOnly(p: Profile, after: Profile, attempt: Directory, reset: bool, replaced: bool, name: string) {
    && (replaced ==> name in attempt.files && name in after.bytes && after.bytes[name] == attempt.files[name])
    && (!replaced && name in p.bytes ==> name in after.bytes && after.bytes[name] == p.bytes[name])
    && (!reset && !replaced && name in p.installed.binaries ==>
          name in after.installed.binaries && after.installed.binaries[name] == p.installed.binaries[name])
    && (name in p.hashes && name !in after.installed.binaries ==> name in after.hashes && after.hashes[name] == p.hashes[name])
  }

  lemma PlanInstallsOnly(p: Profile, attempt: Directory, names: seq<string>, reset: bool, name: string)
    requires name in names ==> name in attempt.files
    ensures InstallsOnly(p, AllWritten(p, Plan(p, attempt, names, reset)), attempt, reset, name in names, name)
  {
    PlanWritten(p, attempt, names, reset);
  }

  /** An update from one manifest to another is allowed: nothing it leaves in place
      was built from other inputs, and what a reset or the dispatcher's replacement
      renews may differ. */
  predicate Compatible(previous: Inputs, candidate: Inputs, reset: bool, includeDispatcher: bool) {
    && SameRuntime(previous, candidate)
    && (reset || (previous.schema == candidate.schema && (includeDispatcher || previous.dispatcher == candidate.dispatcher)))
  }

  /** An update of a profile whose records agree is refused exactly when one is
      pending, the candidate or its copy cannot be read, or one of them is not
      compatible with what is installed; otherwise it completes exactly when it is
      not interrupted before the last of its writes. */
  lemma UpdateIsAdmittedExactly(digest: Bytes -> Digest, p: Profile, directory: Directory, attempt: Directory, reset: bool,
                                includeDispatcher: bool, budget: nat)
    requires Agree(digest, p)
    ensures var outcome := Applied(digest, p, directory, attempt, reset, includeDispatcher, budget).0;
            && (outcome == Refused <==>
                  || p.pending || !Readable(digest, directory) || !Readable(digest, attempt)
                  || !Compatible(p.installed.inputs, directory.candidate.inputs, reset, includeDispatcher)
                  || !Compatible(p.installed.inputs, attempt.candidate.inputs, reset, includeDispatcher))
            && (outcome == Complete <==>
                  outcome != Refused && budget >= (if reset then 7 else if includeDispatcher then 6 else 5))
  {
    AdmitsExactly(digest, p, directory, attempt, reset, includeDispatcher);
    if Admits(digest, p, directory, attempt, reset, includeDispatcher) {
      PlanLength(p, attempt, UpdateKind(p.installed, attempt.candidate, reset, includeDispatcher).value, reset);
    }
  }

  lemma PlanLength(p: Profile, attempt: Directory, names: seq<string>, reset: bool)
    ensures |Plan(p, attempt, names, reset)| == (if reset then 5 else 4) + |names|
  {
    var _ := PlanShape(p, attempt, names, reset);
  }

  lemma AdmitsExactly(digest: Bytes -> Digest, p: Profile, directory: Directory, attempt: Directory, reset: bool, includeDispatcher: bool)
    requires Agree(digest, p)
    ensures Admits(digest, p, directory, attempt, reset, includeDispatcher) <==>
      && !p.pending && Readable(digest, directory) && Readable(digest, attempt)
      && Compatible(p.installed.inputs, directory.candidate.inputs, reset, includeDispatcher)
      && Compatible(p.installed.inputs, attempt.candidate.inputs, reset, includeDispatcher)
  {
    KindIsCompatible(p.installed, directory.candidate, reset, includeDispatcher);
    KindIsCompatible(p.installed, attempt.candidate, reset, includeDispatcher);
    if UpdateKind(p.installed, attempt.candidate, reset, includeDispatcher).Success? {
      AgreeingBytesMatch(digest, p, UpdateKind(p.installed, attempt.candidate, reset, includeDispatcher).value);
    }
  }

  lemma KindIsCompatible(previous: Manifest, candidate: Manifest, reset: bool, includeDispatcher: bool)
    ensures UpdateKind(previous, candidate, reset, includeDispatcher).Success? <==>
            Compatible(previous.inputs, candidate.inputs, reset, includeDispatcher)
  {
  }

  lemma AgreeingBytesMatch(digest: Bytes -> Digest, p: Profile, names: seq<string>)
    requires Agree(digest, p) && forall name :: name in names ==> name in [CONTROL_PLANE, DISPATCHER]
    ensures BytesMatch(digest, p, names) && p.schema == p.installed.inputs.schema
  {
  }

  lemma HexExactly(s: string, size: nat)
    ensures Hex(s, size) <==> |s| == size && forall c :: c in s ==> c in "0123456789abcdef"
  {
    if Hex(s, size) {
      forall c | c in s
        ensures c in "0123456789abcdef"
      {
        HexDigit(c);
      }
    } else if |s| == size {
      var i :| 0 <= i < |s| && !('0' <= s[i] <= '9' || 'a' <= s[i] <= 'f');
      HexDigit(s[i]);
      assert s[i] in s;
    }
  }

  lemma HexDigit(c: char)
    ensures c in "0123456789abcdef" <==> '0' <= c <= '9' || 'a' <= c <= 'f'
  {
    var digits := "0123456789abcdef";
    if '0' <= c <= '9' {
      assert digits[c as int - '0' as int] == c;
    } else if 'a' <= c <= 'f' {
      assert digits[10 + c as int - 'a' as int] == c;
    }
  }

  /** A directory whose manifest is computed from its files is readable exactly when
      it has both services, a full commit, full input digests and a Go toolchain. */
  lemma MaterializedIsReadable(digest: Bytes -> Digest, commit: string, files: map<string, Bytes>, source: Bytes, inputs: Inputs)
    ensures var binaries := map name | name in files :: digest(files[name]);
            Readable(digest, Directory(Manifest(commit, binaries, digest(source), inputs), files, source)) <==>
              && CONTROL_PLANE in files && DISPATCHER in files && Hex(commit, 40) && |inputs.toolchain| >= 2 && inputs.toolchain[..2] == "go"
              && forall d :: d in {inputs.controlPlane, inputs.dispatcher, inputs.worker, inputs.guestd, inputs.runtimeSupport, inputs.schema} ==> Hex(d, 64)
  {
    assert CONTROL_PLANE in [CONTROL_PLANE, DISPATCHER] && DISPATCHER in [CONTROL_PLANE, DISPATCHER];
  }

  lemma CompleteUpdateInstallsTheAttempt(digest: Bytes -> Digest, p: Profile, directory: Directory, attempt: Directory,
                                         reset: bool, includeDispatcher: bool, budget: nat, name: string)
    requires Applied(digest, p, directory, attempt, reset, includeDispatcher, budget).0 == Complete
    ensures var after := Applied(digest, p, directory, attempt, reset, includeDispatcher, budget).1;
            && InstallsOnly(p, after, attempt, reset, Replaces(name, reset, includeDispatcher), name)
            && after.installed.commit == attempt.candidate.commit && after.installed.sourceDigest == attempt.candidate.sourceDigest
  {
    var names := UpdateKind(p.installed, attempt.candidate, reset, includeDispatcher).value;
    KindReplaces(p.installed, attempt.candidate, reset, includeDispatcher, name);
    PlanInstallsOnly(p, attempt, names, reset, name);
    PlanWritten(p, attempt, names, reset);
  }

  // -------------------------------------------------------------- all runs

  datatype Operation =
    | Apply(directory: Directory, attempt: Directory, reset: bool, includeDispatcher: bool, budget: nat)
    | StartServices

  /** The profile and whether the operation went ahead. */
  function Operated(digest: Bytes -> Digest, p: Profile, op: Operation): (bool, Profile) {
    match op
    case StartServices => (!p.pending, p)
    case Apply(directory, attempt, reset, includeDispatcher, budget) =>
      var (outcome, after) := Applied(digest, p, directory, attempt, reset, includeDispatcher, budget);
      (outcome != Refused, after)
  }

  function AfterAll(digest: Bytes -> Digest, p: Profile, ops: seq<Operation>): Profile {
    if ops == [] then p else Operated(digest, AfterAll(digest, p, ops[..|ops| - 1]), ops[|ops| - 1]).1
  }

  /** After any sequence of updates and starts, each update interrupted anywhere,
      the marker is present or the records agree. An operation that goes ahead
      next finds agreement; a marked profile refuses it and stays as it is. */
  lemma {:induction false} ProfileIsAlwaysGuarded(digest: Bytes -> Digest, p: Profile, ops: seq<Operation>, next: Operation)
    requires !p.pending && Agree(digest, p)
    ensures var now := AfterAll(digest, p, ops);
            && Guarded(digest, now)
            && (Operated(digest, now, next).0 ==> Agree(digest, now))
            && (now.pending ==> Operated(digest, now, next) == (false, now))
  {
    if ops != [] {
      var front, last := ops[..|ops| - 1], ops[|ops| - 1];
      ProfileIsAlwaysGuarded(digest, p, front, last);
      OperationIsGuarded(digest, AfterAll(digest, p, front), last);
    }
  }

  /** The operation is an update interrupted after its first write. */
  predicate StopsMidway(digest: Bytes -> Digest, p: Profile, op: Operation) {
    && op.Apply? && op.budget > 0
    && Applied(digest, p, op.directory, op.attempt, op.reset, op.includeDispatcher, op.budget).0 == Interrupted
  }

  lemma PendingAfterExactly(digest: Bytes -> Digest, p: Profile, op: Operation)
    requires Guarded(digest, p)
    ensures Operated(digest, p, op).1.pending <==> p.pending || StopsMidway(digest, p, op)
  {
    if op.Apply? {
      UpdateIsGuarded(digest, p, op.directory, op.attempt, op.reset, op.includeDispatcher, op.budget);
    }
  }

  /** Some operation of the sequence stopped midway. */
  predicate SomeStopsMidway(digest: Bytes -> Digest, p: Profile, ops: seq<Operation>) {
    ops != [] &&
    (|| SomeStopsMidway(digest, p, ops[..|ops| - 1])
     || StopsMidway(digest, AfterAll(digest, p, ops[..|ops| - 1]), ops[|ops| - 1]))
  }

  /** After any sequence of operations on an agreeing profile, starting is refused
      exactly when one of the updates was interrupted after its first write; a
      start that goes ahead finds the records in agreement. */
  lemma {:induction false} StartIsRefusedExactly(digest: Bytes -> Digest, p: Profile, ops: seq<Operation>)
    requires !p.pending && Agree(digest, p)
    ensures var now := AfterAll(digest, p, ops);
            && (!Operated(digest, now, StartServices).0 <==> SomeStopsMidway(digest, p, ops))
            && (Operated(digest, now, StartServices).0 ==> Agree(digest, now))
  {
    ProfileIsAlwaysGuarded(digest, p, ops, StartServices);
    if ops != [] {
      var front, last := ops[..|ops| - 1], ops[|ops| - 1];
      StartIsRefusedExactly(digest, p, front);
      ProfileIsAlwaysGuarded(digest, p, front, last);
      PendingAfterExactly(digest, AfterAll(digest, p, front), last);
    }
  }

  lemma OperationIsGuarded(digest: Bytes -> Digest, p: Profile, op: Operation)
    requires Guarded(digest, p)
    ensures Guarded(digest, Operated(digest, p, op).1)
  {
    if op.Apply? {
      UpdateIsGuarded(digest, p, op.directory, op.attempt, op.reset, op.includeDispatcher, op.budget);
    }
  }

  // ------------------------------------------------- the retained runtime

  /** Writes that install one manifest leave the old manifest or that one. */
  lemma {:induction false} InstalledIsOldOrNew(p: Profile, writes: seq<Write>, manifest: Manifest)
    requires forall i :: 0 <= i < |writes| && writes[i].SetInstalled? ==> writes[i].manifest == manifest
    ensures AllWritten(p, writes).installed == p.installed || AllWritten(p, writes).installed == manifest
  {
    if writes != [] {
      InstalledIsOldOrNew(p, writes[..|writes| - 1], manifest);
    }
  }

  lemma PlanInstallsOneManifest(p: Profile, attempt: Directory, names: seq<string>, reset: bool, n: nat)
    requires n <= |Plan(p, attempt, names, reset)|
    ensures var after := AllWritten(p, Plan(p, attempt, names, reset)[..n]);
            after.installed == p.installed || after.installed == InstalledManifest(p.installed, attempt.candidate, names, reset)
  {
    var plan := Plan(p, attempt, names, reset);
    var installed := InstalledManifest(p.installed, attempt.candidate, names, reset);
    var k := PlanShape(p, attempt, names, reset);
    forall i | 0 <= i < n ensures plan[i].SetInstalled? ==> plan[i].manifest == installed {
      var j := i - k;
      assert 0 <= j < |names| ==> plan[k + j] == Replacement(names, attempt.files, j);
    }
    InstalledIsOldOrNew(p, plan[..n], installed);
  }

  lemma OperationKeepsRuntime(digest: Bytes -> Digest, p: Profile, op: Operation)
    ensures SameRuntime(Operated(digest, p, op).1.installed.inputs, p.installed.inputs)
  {
    if op.Apply? && Admits(digest, p, op.directory, op.attempt, op.reset, op.includeDispatcher) {
      var names := UpdateKind(p.installed, op.attempt.candidate, op.reset, op.includeDispatcher).value;
      var plan := Plan(p, op.attempt, names, op.reset);
      PlanInstallsOneManifest(p, op.attempt, names, op.reset, if op.budget < |plan| then op.budget else |plan|);
      assert plan[..|plan|] == plan;
    }
  }

  /** No sequence of updates, interrupted or not, reset or not, ever records other
      Worker, guest, runtime-support or toolchain inputs than the profile was
      installed with. */
  lemma {:induction false} RuntimeInputsNeverChange(digest: Bytes -> Digest, p: Profile, ops: seq<Operation>)
    ensures SameRuntime(AfterAll(digest, p, ops).installed.inputs, p.installed.inputs)
  {
    if ops != [] {
      var front, last := ops[..|ops| - 1], ops[|ops| - 1];
      RuntimeInputsNeverChange(digest, p, front);
      OperationKeepsRuntime(digest, AfterAll(digest, p, front), last);
    }
  }
}
