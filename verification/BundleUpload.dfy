/** Uploading the objects of a deployment bundle: bounded concurrent batches,
    one reconciliation, and the checks on every upload plan. */
module BundleUpload {
  import opened Wrappers
  import Sets

  type Digest = string

  datatype Object = Object(digest: Digest, size: int, mediaType: string)

  /** The local bundle: its digest, its manifest and the object files at hand. */
  datatype Directory = Directory(digest: Digest, objects: seq<Object>, files: set<Digest>)

  datatype Plan = Plan(bundleDigest: Digest, uploads: seq<Object>)

  datatype UploadError = NotAttempted | Failed

  const BATCH := 2

  function Digests(objects: seq<Object>): set<Digest> {
    if objects == [] then {} else {objects[0].digest} + Digests(objects[1..])
  }

  /** The bundle objects that are not stored yet. */
  function Missing(objects: seq<Object>, present: set<Digest>): set<Digest> {
    Digests(objects) - present
  }

  predicate Distinct(uploads: seq<Object>) {
    forall i, j :: 0 <= i < j < |uploads| ==> uploads[i].digest != uploads[j].digest
  }

  lemma {:induction false} DigestsAre(objects: seq<Object>)
    ensures forall d :: d in Digests(objects) <==> exists i :: 0 <= i < |objects| && objects[i].digest == d
  {
    if objects != [] {
      DigestsAre(objects[1..]);
      forall d ensures d in Digests(objects) <==> exists i :: 0 <= i < |objects| && objects[i].digest == d {
        if d in Digests(objects[1..]) {
          var i :| 0 <= i < |objects[1..]| && objects[1..][i].digest == d;
          assert objects[i + 1].digest == d;
        }
        if i :| 0 <= i < |objects| && objects[i].digest == d {
          assert i > 0 ==> objects[1..][i - 1].digest == d;
        }
      }
    }
  }

  lemma {:induction false} DistinctCount(uploads: seq<Object>)
    requires Distinct(uploads)
    ensures |Digests(uploads)| == |uploads|
  {
    if uploads != [] {
      DistinctCount(uploads[1..]);
      DigestsAre(uploads[1..]);
      forall i | 0 <= i < |uploads[1..]| ensures uploads[1..][i].digest != uploads[0].digest {
        assert uploads[1..][i] == uploads[i + 1];
      }
    }
  }

  /** A plan listing the missing objects of a bundle. */
  function MissingUploads(objects: seq<Object>, present: set<Digest>): (uploads: seq<Object>)
    ensures Digests(uploads) == Missing(objects, present)
  {
    if objects == [] then []
    else
      var rest := MissingUploads(objects[1..], present);
      if objects[0].digest in present then rest else [objects[0]] + rest
  }

  /** An upload plan the client accepts. */
  ghost predicate PlanOk(directory: Directory, plan: Plan) {
    && plan.bundleDigest == directory.digest
    && Distinct(plan.uploads)
    && forall i :: 0 <= i < |plan.uploads| ==>
         plan.uploads[i].digest in directory.files && plan.uploads[i] in directory.objects
  }

  /** The control plane: it may fail any request and others may store objects at
      any time, but it never drops an object and plans exactly the missing ones.
      `planFaults` counts the failed plan requests and the plans that do not fit,
      `failures` the failed uploads and `unattempted` those that were never sent. */
  class Server {
    var present: set<Digest>
    var plans: nat
    var attempts: multiset<Digest>
    ghost var planFaults: nat
    ghost var failures: nat
    ghost var unattempted: nat

    constructor (present: set<Digest>)
      ensures this.present == present && plans == 0 && attempts == multiset{}
      ensures planFaults == failures == unattempted == 0
    {
      this.present := present;
      plans := 0;
      planFaults, failures, unattempted := 0, 0, 0;
      attempts := multiset{};
    }

    method PlanUploads(directory: Directory) returns (plan: Option<Plan>)
      modifies this
      ensures old(present) <= present && plans == old(plans) + 1 && attempts == old(attempts)
      ensures plan.Some? ==> Digests(plan.value.uploads) == Missing(directory.objects, present)
      ensures planFaults == old(planFaults) + (if plan.None? || !PlanOk(directory, plan.value) then 1 else 0)
      ensures failures == old(failures) && unattempted == old(unattempted)
    {
      var arrived: set<Digest> := *;
      present := present + arrived;
      plans := plans + 1;
      var fails: bool := *;
      if fails {
        planFaults := planFaults + 1;
        return None;
      }
      ghost var honest := MissingUploads(directory.objects, present);
      var uploads: seq<Object> :| Digests(uploads) == Missing(directory.objects, present);
      var bundleDigest: Digest := *;
      plan := Some(Plan(bundleDigest, uploads));
      planFaults := planFaults + (if PlanOk(directory, plan.value) then 0 else 1);
    }

    method Upload(digest: Digest) returns (failure: Option<UploadError>)
      modifies this
      ensures old(present) <= present && plans == old(plans)
      ensures attempts == old(attempts) + multiset{digest}
      ensures failure.None? ==> digest in present
      ensures planFaults == old(planFaults) && failures == old(failures) + (if failure.Some? then 1 else 0)
      ensures unattempted == old(unattempted) + (if failure == Some(NotAttempted) then 1 else 0)
    {
      var arrived: set<Digest> := *;
      attempts := attempts + multiset{digest};
      var outcome: Option<UploadError> := *;
      failure := outcome;
      failures := failures + (if failure.Some? then 1 else 0);
      unattempted := unattempted + (if failure == Some(NotAttempted) then 1 else 0);
      present := present + arrived + (if failure.None? then {digest} else {});
    }
  }

  // ------------------------------------------------------------- the plan

  method CheckPlan(directory: Directory, plan: Plan) returns (r: Result<seq<Object>, string>)
    ensures r.Success? <==> PlanOk(directory, plan)
    ensures r.Success? ==> r.value == plan.uploads
  {
    if plan.bundleDigest != directory.digest {
      return Failure("deployment upload plan returned a different bundle digest");
    }
    var seen: set<Digest>, i := {}, 0;
    while i < |plan.uploads|
      invariant 0 <= i <= |plan.uploads|
      invariant PlanOk(directory, plan.(uploads := plan.uploads[..i]))
      invariant forall d :: d in seen <==> exists j :: 0 <= j < i && plan.uploads[j].digest == d
    {
      var upload := plan.uploads[i];
      if upload.digest in seen {
        return Failure("deployment upload plan contains a duplicate object");
      }
      seen := seen + {upload.digest};
      if upload.digest !in directory.files {
        return Failure("deployment upload plan requested an object outside the bundle");
      }
      var matched := Matches(directory.objects, upload);
      if !matched {
        return Failure("deployment upload plan descriptor differs from the bundle");
      }
      assert plan.uploads[..i + 1] == plan.uploads[..i] + [upload];
      i := i + 1;
    }
    assert plan.uploads[..i] == plan.uploads;
    return Success(plan.uploads);
  }

  method Matches(objects: seq<Object>, upload: Object) returns (matched: bool)
    ensures matched <==> upload in objects
  {
    matched := false;
    var i := 0;
    while i < |objects| && !matched
      invariant 0 <= i <= |objects|
      invariant matched ==> upload in objects
      invariant !matched ==> upload !in objects[..i]
    {
      var o := objects[i];
      if o.digest == upload.digest && o.size == upload.size && o.mediaType == upload.mediaType {
        matched := true;
      }
      assert objects[..i + 1] == objects[..i] + [objects[i]];
      i := i + 1;
    }
    assert !matched ==> objects[..i] == objects;
  }

  method PlanObjectUploads(server: Server, directory: Directory) returns (r: Result<seq<Object>, string>)
    modifies server
    ensures old(server.present) <= server.present && server.plans == old(server.plans) + 1
    ensures server.attempts == old(server.attempts)
    ensures r.Success? ==> Distinct(r.value) && Digests(r.value) == Missing(directory.objects, server.present)
    ensures server.planFaults == old(server.planFaults) + (if r.Failure? then 1 else 0)
    ensures server.failures == old(server.failures) && server.unattempted == old(server.unattempted)
  {
    var plan := server.PlanUploads(directory);
    if plan.None? {
      return Failure("plan request failed");
    }
    r := CheckPlan(directory, plan.value);
  }

  // ------------------------------------------------------------ one batch

  /** The progress output: what was reported, the items reported as uploaded, and
      whether writing has failed. */
  class Reporter {
    var entries: seq<(nat, nat)>
    var uploaded: multiset<nat>
    var failed: bool

    constructor ()
      ensures entries == [] && uploaded == multiset{} && !failed
    {
      entries := [];
      uploaded := multiset{};
      failed := false;
    }

    /** Reports item `index` of `total`. A failed write is remembered and nothing
        is written after it. */
    method Report(index: nat, total: nat) returns (ok: bool)
      modifies this
      ensures ok == !failed && (old(failed) ==> failed) && uploaded == old(uploaded)
      ensures entries == old(entries) + (if old(failed) then [] else [(index, total)])
    {
      if !failed {
        entries := entries + [(index, total)];
        var fails: bool := *;
        failed := fails;
      }
      ok := !failed;
    }

    /** Reports item `index` as uploaded. */
    method Uploaded(index: nat, total: nat) returns (ok: bool)
      modifies this
      ensures ok == !failed && (old(failed) ==> failed)
      ensures entries == old(entries) + (if old(failed) then [] else [(index, total)])
      ensures uploaded == old(uploaded) + (if old(failed) then multiset{} else multiset{index})
    {
      if !failed {
        uploaded := uploaded + multiset{index};
      }
      ok := Report(index, total);
    }

    /** Reports a step that is not about an item. */
    method Step() returns (ok: bool)
      modifies this`failed
      ensures ok == !failed && (old(failed) ==> failed)
    {
      var fails: bool := *;
      failed := failed || fails;
      ok := !failed;
    }

    /** Any number of progress reports of one item. */
    method Progress(index: nat, total: nat)
      requires InRange() && 1 <= index <= total
      modifies this
      ensures InRange() && (old(failed) ==> failed) && uploaded == old(uploaded)
    {
      var times: nat := *;
      while times > 0
        invariant InRange() && (old(failed) ==> failed) && uploaded == old(uploaded)
      {
        var _ := Report(index, total);
        times := times - 1;
      }
    }

    ghost predicate InRange()
      reads this
    {
      forall e :: e in entries ==> 1 <= e.0 <= e.1
    }
  }

  /** The context of a deployment, which may end at any time. */
  class Context {
    var done: bool

    constructor ()
      ensures !done
    {
      done := false;
    }

    method Err() returns (stopped: bool)
      modifies this
      ensures stopped == done && (old(done) ==> done)
    {
      var ends: bool := *;
      done := done || ends;
      stopped := done;
    }
  }

  /** Where a batch worker stands. */
  datatype Worker = Starting | Uploading | Finishing | Finished | Skipped

  function Left(w: Worker): nat {
    match w
    case Starting => 3
    case Uploading => 2
    case Finishing => 1
    case Finished => 0
    case Skipped => 0
  }

  function AllLeft(workers: seq<Worker>): nat {
    if workers == [] then 0 else Left(workers[0]) + AllLeft(workers[1..])
  }

  lemma {:induction false} LeftFalls(workers: seq<Worker>, i: nat, w: Worker)
    requires i < |workers| && Left(w) < Left(workers[i])
    ensures AllLeft(workers[i := w]) < AllLeft(workers)
  {
    if i == 0 {
      assert workers[i := w][1..] == workers[1..];
    } else {
      LeftFalls(workers[1..], i - 1, w);
      assert workers[i := w][1..] == workers[1..][i - 1 := w];
    }
  }

  lemma {:induction false} SomeLeft(workers: seq<Worker>)
    ensures AllLeft(workers) > 0 <==> exists i :: 0 <= i < |workers| && Left(workers[i]) > 0
  {
    if workers != [] {
      SomeLeft(workers[1..]);
      if AllLeft(workers[1..]) > 0 {
        var i :| 0 <= i < |workers[1..]| && Left(workers[1..][i]) > 0;
        assert Left(workers[i + 1]) > 0;
      }
      if i :| 0 <= i < |workers| && Left(workers[i]) > 0 {
        assert i > 0 ==> Left(workers[1..][i - 1]) > 0;
      }
    }
  }

  predicate Attempted(w: Worker) {
    w == Finishing || w == Finished
  }

  /** What the batch has done to the server while its workers stand so: one
      attempt for each worker that got there and none for other objects, every
      clean upload stored, and a cause for each skipped worker and each error. */
  ghost predicate BatchSound(batch: seq<Object>, workers: seq<Worker>, errors: seq<Option<UploadError>>, before: multiset<Digest>,
                             attempts: multiset<Digest>, present: set<Digest>, reportFailed: bool, faulted: bool, unsent: bool) {
    && |workers| == |errors| == |batch|
    && (forall i :: 0 <= i < |batch| ==> attempts[batch[i].digest] == before[batch[i].digest] + (if Attempted(workers[i]) then 1 else 0))
    && (forall d :: d !in Digests(batch) ==> attempts[d] == before[d])
    && (forall i :: 0 <= i < |batch| && Attempted(workers[i]) && errors[i].None? ==> batch[i].digest in present)
    && (forall i :: 0 <= i < |batch| && !Attempted(workers[i]) ==> errors[i].None?)
    && (forall i :: 0 <= i < |batch| && workers[i] == Skipped ==> reportFailed)
    && (forall i :: 0 <= i < |batch| && errors[i].Some? ==> faulted && (errors[i].value == NotAttempted ==> unsent))
  }

  lemma BatchMoves(batch: seq<Object>, workers: seq<Worker>, errors: seq<Option<UploadError>>, before: multiset<Digest>,
                   attempts: multiset<Digest>, present: set<Digest>, reportFailed: bool, faulted: bool, unsent: bool,
                   i: nat, next: Worker, reportFailed': bool)
    requires BatchSound(batch, workers, errors, before, attempts, present, reportFailed, faulted, unsent)
    requires i < |workers| && Attempted(next) == Attempted(workers[i])
    requires (reportFailed ==> reportFailed') && (next == Skipped ==> reportFailed')
    ensures BatchSound(batch, workers[i := next], errors, before, attempts, present, reportFailed', faulted, unsent)
  {
  }

  lemma BatchUploads(batch: seq<Object>, workers: seq<Worker>, errors: seq<Option<UploadError>>, before: multiset<Digest>,
                     attempts: multiset<Digest>, present: set<Digest>, reportFailed: bool, faulted: bool, unsent: bool,
                     i: nat, next: Worker, failure: Option<UploadError>,
                     attempts': multiset<Digest>, present': set<Digest>, reportFailed': bool, faulted': bool, unsent': bool)
    requires BatchSound(batch, workers, errors, before, attempts, present, reportFailed, faulted, unsent) && Distinct(batch)
    requires i < |workers| && !Attempted(workers[i]) && Attempted(next)
    requires attempts' == attempts + multiset{batch[i].digest} && present <= present'
    requires failure.None? ==> batch[i].digest in present'
    requires (reportFailed ==> reportFailed') && (faulted || failure.Some? ==> faulted') && (unsent || failure == Some(NotAttempted) ==> unsent')
    ensures BatchSound(batch, workers[i := next], errors[i := failure], before, attempts', present', reportFailed', faulted', unsent')
  {
    DigestsAre(batch);
  }

  /** Each of the objects was attempted at most once more, and no other. */
  ghost predicate AttemptedOnce(objects: set<Digest>, before: multiset<Digest>, attempts: multiset<Digest>) {
    forall d :: before[d] <= attempts[d] <= before[d] + (if d in objects then 1 else 0)
  }

  /** The objects without an error are stored. */
  ghost predicate CleanStored(batch: seq<Object>, errors: seq<Option<UploadError>>, present: set<Digest>) {
    |errors| == |batch| && forall i :: 0 <= i < |batch| && errors[i].None? ==> batch[i].digest in present
  }

  /** What a finished batch promises: at most one attempt per object, and unless
      a worker was skipped every object without an error is stored. */
  lemma BatchEnds(batch: seq<Object>, workers: seq<Worker>, errors: seq<Option<UploadError>>, before: multiset<Digest>,
                  attempts: multiset<Digest>, present: set<Digest>, reportFailed: bool, faulted: bool, unsent: bool)
    requires BatchSound(batch, workers, errors, before, attempts, present, reportFailed, faulted, unsent)
    requires forall i :: 0 <= i < |workers| ==> Left(workers[i]) == 0
    ensures AttemptedOnce(Digests(batch), before, attempts)
    ensures !reportFailed ==> CleanStored(batch, errors, present)
    ensures forall i :: 0 <= i < |batch| && errors[i].Some? ==> faulted && (errors[i].value == NotAttempted ==> unsent)
  {
    DigestsAre(batch);
  }

  /** While the output works, exactly the workers that finished without an error
      have reported their items as uploaded, each once. */
  ghost predicate ReportSound(workers: seq<Worker>, errors: seq<Option<UploadError>>, completed: nat, before: multiset<nat>,
                              uploaded: multiset<nat>, failed: bool) {
    && |workers| == |errors|
    && (!failed ==> forall k :: uploaded[k] == before[k] + (if IsUploaded(workers, errors, k - completed - 1) then 1 else 0))
  }

  predicate IsUploaded(workers: seq<Worker>, errors: seq<Option<UploadError>>, i: int)
    requires |workers| == |errors|
  {
    0 <= i < |workers| && workers[i] == Finished && errors[i].None?
  }

  predicate CleanFinishing(workers: seq<Worker>, errors: seq<Option<UploadError>>) {
    |workers| == |errors| && forall i :: 0 <= i < |workers| && workers[i] == Finishing ==> errors[i].None?
  }

  /** The next place of a worker. */
  predicate Follows(worker: Worker, failure: Option<UploadError>, next: Worker) {
    match worker
    case Starting => next == Uploading || next == Skipped
    case Uploading => next == if failure.None? then Finishing else Finished
    case _ => next == Finished
  }

  lemma ReportMoves(workers: seq<Worker>, errors: seq<Option<UploadError>>, completed: nat, before: multiset<nat>,
                    uploaded: multiset<nat>, failed: bool, i: nat, next: Worker, failure: Option<UploadError>,
                    uploaded': multiset<nat>, failed': bool)
    requires ReportSound(workers, errors, completed, before, uploaded, failed) && (failed ==> failed')
    requires i < |workers| && Left(workers[i]) > 0 && Follows(workers[i], failure, next)
    requires workers[i] != Uploading ==> failure == errors[i]
    requires workers[i] == Finishing ==> errors[i].None?
    requires !failed ==> uploaded' == uploaded + (if workers[i] == Finishing then multiset{completed + i + 1} else multiset{})
    ensures ReportSound(workers[i := next], errors[i := failure], completed, before, uploaded', failed')
  {
  }

  /** Exactly the items of the batch with, or without, an error were reported as uploaded. */
  ghost predicate Reported(errors: seq<Option<UploadError>>, failed: bool, completed: nat, before: multiset<nat>, uploaded: multiset<nat>) {
    forall k :: uploaded[k] == before[k] +
      (if completed < k <= completed + |errors| && errors[k - completed - 1].Some? == failed then 1 else 0)
  }

  /** Exactly the first items were reported as uploaded, each once. */
  ghost predicate ReportedUpTo(completed: nat, before: multiset<nat>, uploaded: multiset<nat>) {
    forall k :: uploaded[k] == before[k] + (if 1 <= k <= completed then 1 else 0)
  }

  lemma ReportedClean(errors: seq<Option<UploadError>>, completed: nat, before: multiset<nat>, uploaded: multiset<nat>, uploaded': multiset<nat>)
    requires ReportedUpTo(completed, before, uploaded) && Reported(errors, false, completed, uploaded, uploaded')
    requires forall i :: 0 <= i < |errors| ==> errors[i].None?
    ensures ReportedUpTo(completed + |errors|, before, uploaded')
  {
  }

  lemma ReportedReconciled(errors: seq<Option<UploadError>>, completed: nat, before: multiset<nat>, uploaded: multiset<nat>,
                           uploaded': multiset<nat>, uploaded'': multiset<nat>)
    requires ReportedUpTo(completed, before, uploaded)
    requires Reported(errors, false, completed, uploaded, uploaded') && Reported(errors, true, completed, uploaded', uploaded'')
    ensures ReportedUpTo(completed + |errors|, before, uploaded'')
  {
  }

  /** One step of the worker of `upload`. */
  method StepWorker(server: Server, reporter: Reporter, worker: Worker, upload: Object, index: nat, total: nat)
    returns (next: Worker, failure: Option<UploadError>)
    requires Left(worker) > 0 && reporter.InRange() && 1 <= index <= total
    modifies server, reporter
    ensures reporter.InRange() && (old(reporter.failed) ==> reporter.failed)
    ensures Left(next) < Left(worker) && Follows(worker, failure, next) && (next == Skipped ==> reporter.failed)
    ensures !old(reporter.failed) ==>
              reporter.uploaded == old(reporter.uploaded) + (if worker == Finishing then multiset{index} else multiset{})
    ensures old(server.present) <= server.present && server.plans == old(server.plans)
    ensures if worker == Uploading then
              && Attempted(next) && server.attempts == old(server.attempts) + multiset{upload.digest}
              && (failure.None? ==> upload.digest in server.present)
            else
              && Attempted(next) == Attempted(worker) && server.attempts == old(server.attempts)
              && server.present == old(server.present) && failure.None?
    ensures server.planFaults == old(server.planFaults) && server.failures == old(server.failures) + (if failure.Some? then 1 else 0)
    ensures server.unattempted == old(server.unattempted) + (if failure == Some(NotAttempted) then 1 else 0)
  {
    failure := None;
    match worker {
      case Starting =>
        var ok := reporter.Report(index, total);
        next := if ok then Uploading else Skipped;
      case Uploading =>
        reporter.Progress(index, total);
        failure := server.Upload(upload.digest);
        next := if failure.None? then Finishing else Finished;
      case Finishing =>
        var _ := reporter.Uploaded(index, total);
        next := Finished;
    }
  }

  /** One step of some worker of a batch. */
  method StepBatch(server: Server, reporter: Reporter, batch: seq<Object>, workers: seq<Worker>, errors: seq<Option<UploadError>>,
                   i: nat, completed: nat, total: nat, ghost before: multiset<Digest>, ghost reported: multiset<nat>, ghost failures: nat,
                   ghost unattempted: nat)
    returns (workers': seq<Worker>, errors': seq<Option<UploadError>>)
    requires Distinct(batch) && i < |workers| && Left(workers[i]) > 0 && completed + |batch| <= total && reporter.InRange()
    requires server.failures >= failures && server.unattempted >= unattempted
    requires BatchSound(batch, workers, errors, before, server.attempts, server.present, reporter.failed,
                        server.failures > failures, server.unattempted > unattempted)
    requires ReportSound(workers, errors, completed, reported, reporter.uploaded, reporter.failed) && CleanFinishing(workers, errors)
    modifies server, reporter
    ensures BatchSound(batch, workers', errors', before, server.attempts, server.present, reporter.failed,
                       server.failures > failures, server.unattempted > unattempted)
    ensures ReportSound(workers', errors', completed, reported, reporter.uploaded, reporter.failed) && CleanFinishing(workers', errors')
    ensures AllLeft(workers') < AllLeft(workers) && reporter.InRange()
    ensures old(server.present) <= server.present && server.plans == old(server.plans) && server.planFaults == old(server.planFaults)
    ensures server.failures >= old(server.failures) && server.unattempted >= old(server.unattempted)
  {
    ghost var attempts, present, uploaded, failed := server.attempts, server.present, reporter.uploaded, reporter.failed;
    ghost var faulted, unsent := server.failures > failures, server.unattempted > unattempted;
    var next, failure := StepWorker(server, reporter, workers[i], batch[i], completed + i + 1, total);
    LeftFalls(workers, i, next);
    workers', errors' := workers[i := next], if workers[i] == Uploading then errors[i := failure] else errors;
    ReportMoves(workers, errors, completed, reported, uploaded, failed, i, next, errors'[i], reporter.uploaded, reporter.failed);
    assert errors[i := errors'[i]] == errors';
    if workers[i] == Uploading {
      BatchUploads(batch, workers, errors, before, attempts, present, failed, faulted, unsent, i, next, failure,
                   server.attempts, server.present, reporter.failed, server.failures > failures, server.unattempted > unattempted);
    } else {
      BatchMoves(batch, workers, errors, before, attempts, present, failed, faulted, unsent, i, next, reporter.failed);
    }
  }

  lemma BatchStarts(batch: seq<Object>, workers: seq<Worker>, errors: seq<Option<UploadError>>, attempts: multiset<Digest>,
                    present: set<Digest>, completed: nat, uploaded: multiset<nat>)
    requires |workers| == |errors| == |batch|
    requires forall i :: 0 <= i < |batch| ==> workers[i] == Starting && errors[i].None?
    ensures BatchSound(batch, workers, errors, attempts, attempts, present, false, false, false)
    ensures ReportSound(workers, errors, completed, uploaded, uploaded, false) && CleanFinishing(workers, errors)
  {
    assert forall i :: !IsUploaded(workers, errors, i);
  }

  lemma ReportEnds(workers: seq<Worker>, errors: seq<Option<UploadError>>, completed: nat, before: multiset<nat>, uploaded: multiset<nat>)
    requires ReportSound(workers, errors, completed, before, uploaded, false)
    requires forall i :: 0 <= i < |workers| ==> workers[i] == Finished
    ensures Reported(errors, false, completed, before, uploaded)
  {
  }

  /** Runs the workers of a batch in any interleaving until all have ended. */
  method UploadBatch(server: Server, reporter: Reporter, batch: seq<Object>, completed: nat, total: nat)
    returns (errors: seq<Option<UploadError>>, reportFailed: bool)
    requires Distinct(batch) && completed + |batch| <= total && reporter.InRange() && !reporter.failed
    modifies server, reporter
    ensures reporter.InRange() && reportFailed == reporter.failed
    ensures old(server.present) <= server.present && server.plans == old(server.plans)
    ensures |errors| == |batch|
    ensures AttemptedOnce(Digests(batch), old(server.attempts), server.attempts)
    ensures !reportFailed ==> CleanStored(batch, errors, server.present)
    ensures server.planFaults == old(server.planFaults)
    ensures server.failures >= old(server.failures) && server.unattempted >= old(server.unattempted)
    ensures forall i :: 0 <= i < |errors| && errors[i].Some? ==> server.failures > old(server.failures)
    ensures Some(NotAttempted) in errors ==> server.unattempted > old(server.unattempted)
    ensures !reportFailed ==> Reported(errors, false, completed, old(reporter.uploaded), reporter.uploaded)
  {
    ghost var before, reported, failures, unattempted := server.attempts, reporter.uploaded, server.failures, server.unattempted;
    var workers := seq(|batch|, _ => Starting);
    errors := seq(|batch|, _ => None);
    SomeLeft(workers);
    BatchStarts(batch, workers, errors, before, server.present, completed, reported);
    while exists i :: 0 <= i < |workers| && Left(workers[i]) > 0
      invariant BatchSound(batch, workers, errors, before, server.attempts, server.present, reporter.failed,
                           server.failures > failures, server.unattempted > unattempted)
      invariant ReportSound(workers, errors, completed, reported, reporter.uploaded, reporter.failed) && CleanFinishing(workers, errors)
      invariant reporter.InRange() && old(server.present) <= server.present && server.plans == old(server.plans)
      invariant server.planFaults == old(server.planFaults) && server.failures >= failures && server.unattempted >= unattempted
      decreases AllLeft(workers)
    {
      var i :| 0 <= i < |workers| && Left(workers[i]) > 0;
      workers, errors := StepBatch(server, reporter, batch, workers, errors, i, completed, total, before, reported, failures, unattempted);
    }
    reportFailed := reporter.failed;
    BatchEnds(batch, workers, errors, before, server.attempts, server.present, reportFailed,
              server.failures > failures, server.unattempted > unattempted);
    if !reportFailed {
      ReportEnds(workers, errors, completed, reported, reporter.uploaded);
    }
  }

  // ------------------------------------------------------------ whole runs

  method Summarize(errors: seq<Option<UploadError>>) returns (failed: bool, unattempted: bool)
    ensures failed <==> exists i :: 0 <= i < |errors| && errors[i].Some?
    ensures unattempted <==> Some(NotAttempted) in errors
  {
    failed, unattempted := false, false;
    var i := 0;
    while i < |errors|
      invariant 0 <= i <= |errors|
      invariant failed <==> exists j :: 0 <= j < i && errors[j].Some?
      invariant unattempted <==> Some(NotAttempted) in errors[..i]
    {
      failed := failed || errors[i].Some?;
      unattempted := unattempted || errors[i] == Some(NotAttempted);
      assert errors[..i + 1] == errors[..i] + [errors[i]];
      i := i + 1;
    }
    assert errors[..i] == errors;
  }

  /** Some failed upload of the batch is still asked for by the new plan. */
  ghost predicate StillWanted(replanned: seq<Object>, batch: seq<Object>, errors: seq<Option<UploadError>>)
  {
    exists k :: 0 <= k < |batch| && k < |errors| && errors[k].Some? && batch[k].digest in Digests(replanned)
  }

  method FailedAgain(replanned: seq<Object>, batch: seq<Object>, errors: seq<Option<UploadError>>) returns (again: bool)
    requires |errors| == |batch|
    ensures again <==> StillWanted(replanned, batch, errors)
  {
    DigestsAre(replanned);
    var i := 0;
    while i < |replanned|
      invariant 0 <= i <= |replanned|
      invariant forall j, k :: 0 <= j < i && 0 <= k < |batch| && errors[k].Some? ==> replanned[j].digest != batch[k].digest
    {
      var k := 0;
      while k < |batch|
        invariant 0 <= k <= |batch|
        invariant forall m :: 0 <= m < k && errors[m].Some? ==> replanned[i].digest != batch[m].digest
      {
        if errors[k].Some? && replanned[i].digest == batch[k].digest {
          return true;
        }
        k := k + 1;
      }
      i := i + 1;
    }
    return false;
  }

  /** Reports the reconciled uploads of a batch as uploaded. */
  method ReportReconciled(reporter: Reporter, errors: seq<Option<UploadError>>, completed: nat, total: nat) returns (ok: bool)
    requires reporter.InRange() && !reporter.failed && completed + |errors| <= total
    modifies reporter
    ensures reporter.InRange() && ok == !reporter.failed
    ensures ok ==> Reported(errors, true, completed, old(reporter.uploaded), reporter.uploaded)
  {
    var k := 0;
    while k < |errors|
      invariant 0 <= k <= |errors| && reporter.InRange() && !reporter.failed
      invariant Reported(errors[..k], true, completed, old(reporter.uploaded), reporter.uploaded)
    {
      if errors[k].Some? {
        ok := reporter.Uploaded(completed + k + 1, total);
        if !ok { return; }
      }
      assert errors[..k + 1] == errors[..k] + [errors[k]];
      k := k + 1;
    }
    assert errors[..k] == errors;
    ok := true;
  }

  /** Every bundle object is stored. */
  ghost predicate AllStored(directory: Directory, present: set<Digest>) {
    forall i :: 0 <= i < |directory.objects| ==> directory.objects[i].digest in present
  }

  ghost predicate AtMostOnceMore(before: multiset<Digest>, attempts: multiset<Digest>) {
    forall d :: attempts[d] <= before[d] + 1
  }

  /** What holds between batches: what is missing is still to be uploaded, no
      digest was tried twice and the rest were not tried at all. */
  ghost predicate Between(directory: Directory, uploads: seq<Object>, completed: nat, total: nat,
                          before: multiset<Digest>, attempts: multiset<Digest>, present: set<Digest>) {
    && Distinct(uploads)
    && completed + |uploads| <= total
    && Missing(directory.objects, present) <= Digests(uploads)
    && AtMostOnceMore(before, attempts)
    && (forall d :: d in Digests(uploads) ==> attempts[d] == before[d])
  }

  lemma {:induction false} DigestsAppend(first: seq<Object>, more: seq<Object>)
    ensures Digests(first + more) == Digests(first) + Digests(more)
  {
    if first == [] {
      assert first + more == more;
    } else {
      assert (first + more)[1..] == first[1..] + more;
      DigestsAppend(first[1..], more);
    }
  }

  lemma SplitDigests(uploads: seq<Object>, n: nat)
    requires n <= |uploads| && Distinct(uploads)
    ensures Distinct(uploads[..n]) && Distinct(uploads[n..])
    ensures Digests(uploads) == Digests(uploads[..n]) + Digests(uploads[n..])
    ensures Digests(uploads[..n]) !! Digests(uploads[n..])
  {
    assert uploads == uploads[..n] + uploads[n..];
    DigestsAppend(uploads[..n], uploads[n..]);
    HalvesApart(uploads, n);
  }

  lemma HalvesApart(uploads: seq<Object>, n: nat)
    requires n <= |uploads| && Distinct(uploads)
    ensures Digests(uploads[..n]) !! Digests(uploads[n..])
  {
    DigestsAre(uploads[..n]);
    DigestsAre(uploads[n..]);
    forall d | d in Digests(uploads[n..]) ensures d !in Digests(uploads[..n]) {
      var i :| 0 <= i < |uploads[n..]| && uploads[n..][i].digest == d;
      assert uploads[n + i].digest == d;
    }
  }

  /** A clean batch advances. */
  lemma CleanBatch(directory: Directory, uploads: seq<Object>, n: nat, completed: nat, total: nat, before: multiset<Digest>,
                   attempts: multiset<Digest>, present: set<Digest>, attempts': multiset<Digest>, present': set<Digest>,
                   errors: seq<Option<UploadError>>)
    requires Between(directory, uploads, completed, total, before, attempts, present) && n <= |uploads| && present <= present'
    requires AttemptedOnce(Digests(uploads[..n]), attempts, attempts')
    requires CleanStored(uploads[..n], errors, present') && forall i :: 0 <= i < |errors| ==> errors[i].None?
    ensures Between(directory, uploads[n..], completed + n, total, before, attempts', present')
  {
    SplitDigests(uploads, n);
    DigestsAre(uploads[..n]);
    forall d | d in Missing(directory.objects, present') ensures d in Digests(uploads[n..]) {
      assert d in Digests(uploads);
      assert d !in Digests(uploads[..n]);
    }
  }

  /** A failed batch whose failures the new plan no longer asks for advances to
      that plan, which is no longer than what was left. */
  lemma ReconciledBatch(directory: Directory, uploads: seq<Object>, n: nat, errors: seq<Option<UploadError>>, replanned: seq<Object>,
                        completed: nat, total: nat, before: multiset<Digest>, attempts: multiset<Digest>, present: set<Digest>,
                        attempts': multiset<Digest>, present': set<Digest>)
    requires Between(directory, uploads, completed, total, before, attempts, present) && n <= |uploads| && present <= present'
    requires AttemptedOnce(Digests(uploads[..n]), attempts, attempts')
    requires CleanStored(uploads[..n], errors, present')
    requires Distinct(replanned) && Digests(replanned) == Missing(directory.objects, present')
    requires !StillWanted(replanned, uploads[..n], errors)
    ensures Between(directory, replanned, completed + n, total, before, attempts', present')
  {
    SplitDigests(uploads, n);
    ReplanIsLeft(directory, uploads, n, errors, replanned, present, present');
    Sets.SubsetSize(Digests(replanned), Digests(uploads[n..]));
    DistinctCount(replanned);
    DistinctCount(uploads[n..]);
  }

  /** The new plan asks only for objects after the batch. */
  lemma ReplanIsLeft(directory: Directory, uploads: seq<Object>, n: nat, errors: seq<Option<UploadError>>, replanned: seq<Object>,
                     present: set<Digest>, present': set<Digest>)
    requires n <= |uploads| && Missing(directory.objects, present) <= Digests(uploads) && present <= present'
    requires Distinct(uploads) && CleanStored(uploads[..n], errors, present')
    requires Digests(replanned) == Missing(directory.objects, present') && !StillWanted(replanned, uploads[..n], errors)
    ensures Digests(replanned) <= Digests(uploads[n..])
  {
    SplitDigests(uploads, n);
    BatchIsDone(directory, uploads[..n], errors, replanned, present');
  }

  lemma BatchIsDone(directory: Directory, batch: seq<Object>, errors: seq<Option<UploadError>>, replanned: seq<Object>, present: set<Digest>)
    requires CleanStored(batch, errors, present)
    requires Digests(replanned) == Missing(directory.objects, present) && !StillWanted(replanned, batch, errors)
    ensures Digests(batch) !! Digests(replanned)
  {
    DigestsAre(batch);
  }

  lemma NothingMissing(directory: Directory, present: set<Digest>)
    requires Missing(directory.objects, present) <= {}
    ensures AllStored(directory, present)
  {
    DigestsAre(directory.objects);
    forall i | 0 <= i < |directory.objects| ensures directory.objects[i].digest in present {
      assert directory.objects[i].digest in Digests(directory.objects);
    }
  }

  /** Only objects still to be uploaded were tried, so none is tried twice. */
  lemma TriedOnce(directory: Directory, uploads: seq<Object>, n: nat, completed: nat, total: nat, before: multiset<Digest>,
                  attempts: multiset<Digest>, present: set<Digest>, attempts': multiset<Digest>)
    requires Between(directory, uploads, completed, total, before, attempts, present) && n <= |uploads|
    requires AttemptedOnce(Digests(uploads[..n]), attempts, attempts')
    ensures AtMostOnceMore(before, attempts')
  {
    SplitDigests(uploads, n);
  }

  /** Some failed upload of the batch is of an object that is still missing. */
  ghost predicate StillMissing(directory: Directory, batch: seq<Object>, errors: seq<Option<UploadError>>, present: set<Digest>) {
    exists k :: 0 <= k < |batch| && k < |errors| && errors[k].Some? && batch[k].digest in Missing(directory.objects, present)
  }

  /** Plans again after a failed batch: gives up when a failed object is still
      missing, and otherwise reports the batch as uploaded. It fails for no other
      reason than that, a plan or a report. */
  method Reconcile(server: Server, directory: Directory, reporter: Reporter, batch: seq<Object>, errors: seq<Option<UploadError>>,
                   completed: nat, total: nat) returns (r: Result<seq<Object>, string>)
    requires reporter.InRange() && !reporter.failed && |errors| == |batch| && completed + |batch| <= total
    modifies server, reporter
    ensures reporter.InRange() && old(server.present) <= server.present && server.plans == old(server.plans) + 1
    ensures server.attempts == old(server.attempts) && server.failures == old(server.failures) && server.unattempted == old(server.unattempted)
    ensures server.planFaults >= old(server.planFaults)
    ensures r.Failure? ==>
              || server.planFaults > old(server.planFaults) || reporter.failed
              || StillMissing(directory, batch, errors, server.present)
    ensures r.Success? ==>
              && !reporter.failed && Distinct(r.value) && Digests(r.value) == Missing(directory.objects, server.present)
              && !StillWanted(r.value, batch, errors)
              && Reported(errors, true, completed, old(reporter.uploaded), reporter.uploaded)
  {
    r := PlanObjectUploads(server, directory);
    if r.Failure? {
      return Failure("reconcile deployment upload: " + r.error);
    }
    var again := FailedAgain(r.value, batch, errors);
    if again {
      return Failure("upload failed");
    }
    var reported := ReportReconciled(reporter, errors, completed, total);
    if !reported {
      return Failure("report error");
    }
  }

  /** How a batch came out: all clean, stopped by a report or the context, or with
      failures, some of them perhaps never sent. */
  datatype Verdict = Clean | Stopped | Unsent | Faulty

  /** Uploads the next batch and sums it up. */
  method UploadNext(server: Server, directory: Directory, reporter: Reporter, context: Context, uploads: seq<Object>, n: nat,
                    completed: nat, total: nat, ghost before: multiset<Digest>, ghost reported: multiset<nat>)
    returns (errors: seq<Option<UploadError>>, verdict: Verdict)
    requires n <= |uploads| && reporter.InRange() && !reporter.failed
    requires Between(directory, uploads, completed, total, before, server.attempts, server.present)
    requires ReportedUpTo(completed, reported, reporter.uploaded)
    modifies server, reporter, context
    ensures reporter.InRange() && old(server.present) <= server.present && |errors| == n
    ensures server.plans == old(server.plans) && server.planFaults == old(server.planFaults)
    ensures server.failures >= old(server.failures) && server.unattempted >= old(server.unattempted)
    ensures AttemptedOnce(Digests(uploads[..n]), old(server.attempts), server.attempts) && AtMostOnceMore(before, server.attempts)
    ensures if verdict.Stopped? then reporter.failed || context.done
            else
              && !reporter.failed && CleanStored(uploads[..n], errors, server.present)
              && Reported(errors, false, completed, old(reporter.uploaded), reporter.uploaded)
    ensures verdict.Clean? ==>
              && Between(directory, uploads[n..], completed + n, total, before, server.attempts, server.present)
              && ReportedUpTo(completed + n, reported, reporter.uploaded)
    ensures verdict.Unsent? ==> server.unattempted > old(server.unattempted)
    ensures verdict.Faulty? ==> server.failures > old(server.failures)
  {
    ghost var attempts, present, uploaded := server.attempts, server.present, reporter.uploaded;
    var reportFailed;
    errors, reportFailed := UploadBatch(server, reporter, uploads[..n], completed, total);
    TriedOnce(directory, uploads, n, completed, total, before, attempts, present, server.attempts);
    var failed, unattempted := Summarize(errors);
    var stopped := context.Err();
    if reportFailed || stopped {
      return errors, Stopped;
    }
    if failed {
      return errors, if unattempted then Unsent else Faulty;
    }
    CleanBatch(directory, uploads, n, completed, total, before, attempts, present, server.attempts, server.present, errors);
    ReportedClean(errors, completed, reported, uploaded, reporter.uploaded);
    return errors, Clean;
  }

  /** Uploads every missing object of the bundle. A run fails only when a plan,
      a report or the context does, when an upload was never sent, or when the
      failed uploads were planned again and a failed object was still missing or
      another upload failed after that. */
  method UploadObjects(server: Server, directory: Directory, reporter: Reporter, context: Context) returns (r: Result<(), string>)
    requires reporter.entries == [] && !reporter.failed
    modifies server, reporter, context
    ensures r.Success? ==> AllStored(directory, server.present)
    ensures old(server.present) <= server.present
    ensures server.plans <= old(server.plans) + 2
    ensures AtMostOnceMore(old(server.attempts), server.attempts)
    ensures reporter.InRange()
    ensures r.Success? ==> exists n: nat :: ReportedUpTo(n, old(reporter.uploaded), reporter.uploaded)
    ensures r.Failure? ==>
              || server.planFaults > old(server.planFaults) || reporter.failed || context.done
              || server.unattempted > old(server.unattempted)
              || (&& server.plans == old(server.plans) + 2 && server.failures > old(server.failures)
                  && (server.failures > old(server.failures) + 1 || Missing(directory.objects, server.present) != {}))
  {
    ghost var before, reported := server.attempts, reporter.uploaded;
    var planned := PlanObjectUploads(server, directory);
    if planned.Failure? {
      return Failure(planned.error);
    }
    var uploads := planned.value;
    var reconciled, total, completed: nat := false, |uploads|, 0;
    while |uploads| > 0
      invariant Between(directory, uploads, completed, total, before, server.attempts, server.present)
      invariant ReportedUpTo(completed, reported, reporter.uploaded)
      invariant reporter.InRange() && !reporter.failed && old(server.present) <= server.present
      invariant server.planFaults >= old(server.planFaults) && server.unattempted >= old(server.unattempted)
      invariant server.failures >= old(server.failures) + (if reconciled then 1 else 0)
      invariant server.plans == old(server.plans) + (if reconciled then 2 else 1)
      decreases !reconciled, |uploads|
    {
      var n := if |uploads| < BATCH then |uploads| else BATCH;
      ghost var attempts, present, uploaded := server.attempts, server.present, reporter.uploaded;
      var errors, verdict := UploadNext(server, directory, reporter, context, uploads, n, completed, total, before, reported);
      if verdict.Stopped? {
        return Failure("report or context error");
      }
      if verdict.Clean? {
        completed, uploads := completed + n, uploads[n..];
      } else if reconciled || verdict.Unsent? {
        return Failure("upload failed");
      } else {
        reconciled := true;
        var stepped := reporter.Step();
        if !stepped {
          return Failure("report error");
        }
        ghost var uploaded' := reporter.uploaded;
        var replanned := Reconcile(server, directory, reporter, uploads[..n], errors, completed, total);
        if replanned.Failure? {
          return Failure(replanned.error);
        }
        ReconciledBatch(directory, uploads, n, errors, replanned.value, completed, total, before, attempts, present,
                        server.attempts, server.present);
        ReportedReconciled(errors, completed, reported, uploaded, uploaded', reporter.uploaded);
        completed, uploads := completed + n, replanned.value;
      }
    }
    NothingMissing(directory, server.present);
    return Success(());
  }
}
