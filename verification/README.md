# Helmr verification

A Dafny model of the parts of Helmr whose correctness spans several functions,
several processes or whole runs. Everything is stated for all inputs, all
interleavings or all reachable states. The table below says which source lines
each theorem models.

## What is modelled

**The cron trigger scheduler.** `Cron` is the contract of the next-instant
function: on lawful schedules it returns the least instant strictly after the
anchor, and instants lie on the microsecond grid. `TriggerEvaluation` is the
windowed search of one evaluation. `Scheduler` holds the activation, occurrence
and Session tables as a class whose methods are the transactions: promotion,
evaluation and the sealing of a deleted Agent. A transaction takes the
Environment lock, so it is one atomic step that commits whole or changes
nothing; clock readings and the outcome of Session admission are inputs.
`SchedulerRuns` proves what every run of those steps keeps, `SchedulerHistory`
that every instant behind a cursor was passed by exactly one step that answers
for it, and `Sweep` with `SweepTables` the keyset sweep that drives the
evaluations and what it leaves due.

At-most-once admission and the account by steps hold of every run, whatever the
clock reads. The remaining scheduler modules are about runs whose readings never
go back. Over all of them the intervals of one trigger are disjoint
(`SchedulerIntervals`). A step *conflicts* when it moves a cursor that stands on
an instant already recorded: a committed evaluation of the row, or the sealing of
its Agent. This can be told before the step, and two things hold throughout a run
exactly when no step of it conflicts: the tables explain every instant behind
every cursor by occurrences of its own activation (`SchedulerCoverage.AccountIsKeptExactly`), and
the conflict clauses and the existence check change no result
(`SchedulerGuards.GuardsAreIdleExactly`). Only a promotion that opens a trigger on
an instant another activation has recorded can lead to a conflict; promotions
that read later clocks than all steps before them never do (`SchedulerTies`). With
equal readings conflicts occur: `SchedulerTies.EqualReadingsLoseTheAccount` is a
run whose last evaluation starts no second Session only because of the existence
check, and after which the new activation does not explain its first instant.

**The artifact tree and its resolver.** `Paths` has the path and link-target
rules, with admitted text proved to be UTF-8 encoded text. `ArtifactTree` is the verifier's admission of an untrusted entry list,
proved to accept exactly the acceptable lists. `Resolver` is the symlink
worklist with its hop bound and visited states, proved against a recursive
link-following walk. `Glob` is the exclusion-pattern translation, proved against
a direct recursive matcher by parsing the generated expression back.
`InstalledArchive` is the producer's collection of an installed tree: its
budget, its sort, and the agreement of its name budget with the verifier's.

**Protocols.** `Supervision` is the dispatcher's runner supervision as a state
machine over goroutine, channel and context steps. `HostSecret` is worker
host-secret enrollment for any number of processes under a file lock, where any
process may fail between any two atomic actions. `ServiceUpdate` is the pending
marker of service updates, interrupted after any number of writes.
`BundleUpload` is the deployment upload with concurrent batches and one
reconciliation.

**Permissions and retention.** `Permissions` is the pointwise permission check
and the two target lists that must agree with it. `Retention` is the parsing and
printing of retention and duration text, with 64-bit wrap-around written out.

## Assumptions

- `Cron.Lawful` is what the proofs need of the cron library: strict successor,
  least later instant, microsecond grid. A lookup may also have no answer.
- Clocks are inputs. `SchedulerIntervals`, `SchedulerCoverage`, `SchedulerGuards` and
  `SchedulerTies` ask that they never go back.
- `HostSecret`: the clauses on which secret is removed or presented again need
  enrollments that never repeat a host and secret (`Fresh`); conservation does not.
- `BundleUpload`: the server never drops a stored object and plans exactly the
  missing ones; it may fail any request, store an object of a failed upload, or
  gain objects from others at any time. Its plan may still carry duplicates,
  foreign objects or wrong descriptors.
- `Permissions`: UUID parsing is a function; the catalog is any map from
  permissions to scope types and API-key eligibility. Grants and callers in the
  repository spell identifiers canonically; what is proved about other spellings
  is about the functions at their boundary.
- `ServiceUpdate`: the digest is any function of the bytes. Every check and
  service command between two writes may raise, which is an interruption there.

## Model

| member | source | states |
|---|---|---|
| `Cron.NextIsLeastLaterInstant` | internal/definition/cron.go:57-94 | The next cron time after an anchor is an instant of the schedule, later than the anchor, with no instant in between |
| `TriggerEvaluation.LatestInstant` | internal/agent/trigger.go:66-77 | The search loop finds the greatest instant of the window, or that it has none, and fails only when a lookup of the window has no answer |
| `TriggerEvaluation.EvaluateDue` | internal/agent/trigger.go:66-88 | A due cursor is decided by meaning alone: latest instant of the window, cursor missed unless it is the latest, next cursor the least instant after the window; it fails exactly when a lookup fails |
| `TriggerEvaluation.EvaluateTrigger` | internal/agent/trigger.go:53-89 | In every case the result is the one the meaning prescribes for the window from max(next, now - 5 min) to min(now, until - 1 us) |
| `TriggerEvaluation.MeaningIsUnique` | internal/agent/trigger.go:53-89 | That meaning admits one result only |
| `TriggerEvaluation.EvaluationBounds` | internal/agent/trigger.go:53-89 | The cursor strictly increases, passes the end of a closed activation, and what is admitted is at least the cursor, below the end in force and at most five minutes old |
| `TriggerEvaluation.PassedOver` | internal/agent/trigger.go:61-88 | An instant the cursor passes is at most the admitted one or, when none is admitted, older than the lateness |
| `Scheduler.TriggerStore.ReplaceActivations` | internal/agent/activation.go:26-43 | Promotion closes the open intervals of the Environment at the cutover and opens the declared ones, or changes nothing |
| `Scheduler.TriggerStore.EvaluateTrigger` | internal/agent/trigger.go:94-214 | The whole evaluation transaction: refused ids, missing rows, failed lookups, nothing due, and the committed tables |
| `Scheduler.TriggerStore.Commit` | internal/agent/trigger.go:151-219 | Missed record, existence check, admission or rejection and cursor move commit together; a failed admission leaves all tables as they were |
| `Scheduler.TriggerStore.SealDeletedAgent` | internal/agent/deletion.go:11-20 | Due cursors of the Agent's closed rows are recorded as missed unless recorded already, every unfinished closed cursor moves to its end, and the count is the rows moved |
| `Scheduler.InsertAllFailsLater` | internal/agent/activation.go:31-41 | A bulk insert that is refused at one row is refused as a whole |
| `SchedulerRuns.DecisionsAreSound` | internal/agent/trigger.go:53-89 | A decision meeting its meaning, on a well-formed activation, satisfies all the invariant needs of it |
| `SchedulerRuns.CommitShape` | internal/agent/trigger.go:151-219 | Entry by entry, what a committed evaluation adds: the latest instant admitted or rejected, the cursor missed, at most one Session, nothing recorded changed |
| `SchedulerRuns.LatestIsDisposedOf` | internal/agent/trigger.go:160-240 | An unrecorded latest instant is disposed of exactly by its Slack binding, the route and the attempt: rejected while waiting for Slack or with an inactive route, otherwise admitted with a new Session, rejected for the attempt's reason, or not committed at all |
| `SchedulerRuns.EvaluateKeeps` | internal/agent/trigger.go:151-211 | A committed evaluation keeps the table invariant and everything recorded |
| `SchedulerRuns.PromoteKeeps` | internal/agent/activation.go:26-43 | A promotion keeps the table invariant and everything recorded |
| `SchedulerRuns.MissSealedShape` | internal/agent/deletion.go:12-15 | The bulk insert adds exactly the due cursors of the Agent's closed rows, whatever the scan order, and changes no recorded occurrence |
| `SchedulerRuns.SealKeeps` | internal/agent/deletion.go:11-20 | Sealing keeps the table invariant and everything recorded |
| `SchedulerRuns.StepKeeps` | internal/agent/trigger.go:94-219 | Every step of the scheduler keeps the invariant and only extends the tables |
| `SchedulerRuns.RunKeeps` | internal/agent/trigger.go:94-219 | So does every run |
| `SchedulerRuns.CoreIsExact` | internal/agent/trigger.go:160-219 | The invariant makes scheduled Sessions and admitted occurrences correspond one to one |
| `SchedulerRuns.AdmissionOverRuns` | internal/agent/trigger.go:151-219 | Over every run from empty tables: one occurrence per key, dispositions never change, Sessions one-to-one with admitted instants, each an instant of its schedule, at most five minutes old, of a trigger not waiting for Slack |
| `SchedulerRuns.NeverDueAgain` | internal/agent/trigger_loop.go:48-50 | An activation whose cursor reached its end is never due again, whatever runs after |
| `SchedulerRuns.SealingUsesUp` | internal/agent/deletion.go:18-19 | Sealing brings every closed row of the Agent to that state |
| `SchedulerRuns.SealMovesExactly` | internal/agent/deletion.go:18-19 | Sealing moves the cursors of the Agent's unfinished closed rows to their ends and changes no other row |
| `SchedulerRuns.DueExactly` | internal/agent/trigger_loop.go:48-50 | The sweep's due condition holds of a row exactly when its evaluation would find something due |
| `SchedulerRuns.UsedUpForGood` | internal/agent/trigger_loop.go:48-50 | An activation evaluated at or after its end, with something due or not, or sealed, is never due again after any further run |
| `SchedulerRuns.EvaluationIsBounded` | internal/agent/trigger.go:44-51 | However long the outage, one evaluation writes at most two occurrences and one Session, moves the cursor forward, and uses up an activation evaluated at or after its end |
| `SchedulerRuns.CommitIsBounded` | internal/agent/trigger.go:151-211 | The counting behind it, from the entries a commit adds |
| `SchedulerRuns.PassedInstantsAreAccountedFor` | internal/agent/trigger.go:61-88 | Every instant a committed evaluation moves past is recorded, superseded by a later recorded instant, or older than the lateness |
| `SchedulerHistory.MovingStepPasses` | internal/agent/trigger.go:151-211 | A step that moves a cursor past an instant is an evaluation of that row that settles it, or the deletion of its Agent |
| `SchedulerHistory.EveryPassedInstantHasItsStep` | internal/agent/trigger.go:44-51 | Over every run from empty tables, with any clock, every instant behind a cursor was passed by a step: an evaluation that recorded it, chose a later recorded instant or found it past the lateness, or a deletion of the Agent that recorded its cursor if due |
| `SchedulerHistory.OneStepPasses` | internal/agent/trigger.go:211-212 | By exactly one step, since cursors never go back |
| `SchedulerIntervals.PromoteTimed` | internal/agent/activation.go:26-43 | A promotion at the same or a later reading keeps intervals disjoint, and inside them instants recorded only behind the cursor or at the start it stands on |
| `SchedulerIntervals.PromotionChangesExactly` | internal/agent/activation.go:26-43 | What a promotion leaves of each row: open rows of the Environment end at the cutover, all others stay, and the new rows are exactly the declared ones, opened there |
| `SchedulerIntervals.PromotionGoesThroughExactly` | internal/agent/activation.go:26-43 | A promotion goes through exactly when no open row of the Environment starts after the cutover, every declared schedule answers, every row is new, and ids and trigger keys are pairwise distinct |
| `SchedulerIntervals.TimedStep` | internal/agent/trigger.go:94-219 | So does every step at the same or a later reading |
| `SchedulerIntervals.IntervalsStayDisjoint` | internal/agent/activation.go:26-43 | Over every run with non-decreasing readings the intervals of one trigger are disjoint |
| `SchedulerCoverage.EvaluateCovers` | internal/agent/trigger.go:151-211 | An evaluation from a cursor that is not recorded leaves every passed instant explained: recorded, passed over by one evaluation that recorded its superseded cursor and its later choice, or past the lateness when its cursor was missed |
| `SchedulerCoverage.EvaluateUncovers` | internal/agent/trigger.go:160-165 | A committed evaluation from a recorded cursor leaves the instant it moves off unexplained |
| `SchedulerCoverage.PromoteCovers` | internal/agent/activation.go:26-43 | Every promotion keeps every explanation, and the rows it opens have passed no instant |
| `SchedulerCoverage.SealRecords` | internal/agent/deletion.go:12-15 | Sealing records the cursor of every unfinished closed row of the Agent unless that instant is recorded |
| `SchedulerCoverage.SealCovers` | internal/agent/deletion.go:11-20 | Sealing from cursors that are not recorded keeps instants explained |
| `SchedulerCoverage.SealUncovers` | internal/agent/deletion.go:11-20 | Sealing from a recorded cursor leaves that instant unexplained |
| `SchedulerCoverage.RecordedCursorIsForeign` | internal/agent/trigger.go:216-219 | A recorded instant a cursor stands on is the start of its interval and was recorded by another activation |
| `SchedulerCoverage.RecordedCursorIsNeverExplained` | internal/agent/trigger.go:160-165 | Once the cursor has moved off it, no later tables explain it by the row's own occurrences |
| `SchedulerCoverage.StepIsCoveredExactly` | internal/agent/trigger.go:94-219 | A step keeps every passed instant explained exactly when it does not conflict |
| `SchedulerCoverage.AccountIsKeptExactly` | internal/agent/trigger.go:44-51 | Over every run with non-decreasing readings, every passed instant is explained in every state exactly when no step conflicts |
| `SchedulerCoverage.EveryInstantIsAccountedFor` | internal/agent/trigger.go:44-51 | At the end of every such run without conflicts every instant behind every cursor is explained by occurrences of its own activation |
| `SchedulerCoverage.EmptyIsAccounted` | internal/agent/activation.go:26-43 | The account holds of empty tables at any clock reading |
| `SchedulerGuards.EvaluationNeedsNoGuard` | internal/agent/trigger.go:156-165 | From a cursor that is not recorded an evaluation commits what it would commit without the conflict clause and the existence check |
| `SchedulerGuards.EvaluationNeedsItsGuard` | internal/agent/trigger.go:156-165 | From a recorded cursor a committed evaluation keeps the record, which without them it would overwrite, or it would not commit |
| `SchedulerGuards.SealingNeedsNoGuard` | internal/agent/deletion.go:12-15 | Without recorded cursors the sealing insert needs no conflict clause, whatever the scan order |
| `SchedulerGuards.SealingNeedsItsGuard` | internal/agent/deletion.go:12-15 | With a recorded cursor the conflict clause keeps the record the insert would overwrite |
| `SchedulerGuards.StepGuardsExactly` | internal/agent/trigger.go:156-165 | The guards change what a step does exactly when the step conflicts |
| `SchedulerGuards.GuardsAreIdleExactly` | internal/agent/trigger.go:156-165 | Over every run with non-decreasing readings the guards change nothing exactly when no step conflicts, and then the run without them ends in the same tables |
| `SchedulerTies.PromotionIsAheadExactly` | internal/agent/activation.go:26-43 | After a promotion nothing is recorded at or after a cursor exactly when no declared trigger fires at the cutover with that instant recorded |
| `SchedulerTies.PromotionIsInsideExactly` | internal/agent/activation.go:26-30 | A promotion leaves occurrences inside the intervals of their activations exactly when those of the rows it closes lie before the cutover |
| `SchedulerTies.UnclearPromotionOpensOnRecord` | internal/agent/activation.go:26-43 | Otherwise it opens a new row whose cursor is its start and is recorded by another activation |
| `SchedulerTies.StepIsAheadExactly` | internal/agent/trigger.go:94-219 | A step keeps every instant at or after a cursor unrecorded exactly when it is not such a promotion |
| `SchedulerTies.ClearRunsNeverConflict` | internal/agent/activation.go:26-43 | Runs without such promotions never conflict |
| `SchedulerTies.LaterPromotionsAreClear` | internal/agent/activation.go:26-43 | Runs whose promotions read later clocks than the steps before them have none |
| `SchedulerTies.LaterPromotionsKeepTheAccount` | internal/agent/activation.go:26-43 | From empty tables such runs explain every passed instant throughout and never need a guard |
| `SchedulerTies.EqualReadingsLoseTheAccount` | internal/agent/trigger.go:160-165 | With equal readings a concrete run conflicts: its last evaluation needs the existence check, every instant is explained before it and not after it |
| `Sweep.AscendingIsExact` | internal/agent/trigger_loop.go:48-50 | The keyset order lists exactly the due rows after a position, each once, increasing |
| `Sweep.LessIsTotal` | internal/agent/trigger_loop.go:48-50 | The keyset order is a strict total order, by Environment first, in which the zero position precedes every row |
| `Sweep.PageStep` | internal/agent/trigger_loop.go:75-81 | After a full page the next query continues with the rows that follow, whichever rows of the page are still due |
| `Sweep.Query` | internal/agent/trigger_loop.go:48-63 | The query returns the first at most 100 due rows after the position |
| `Sweep.Reconciler.ReconcileTriggers` | internal/agent/trigger_loop.go:46-82 | One call attempts the page in order and collects failures without stopping; a failed query or a cancellation returns the last position with no more, and only a completed short page resets it |
| `Sweep.Reconciler.Pass` | internal/agent/trigger_loop.go:46-82 | A call leaves exactly the rest of the sweep to do, a failed query all of it, and a cancelled call has done a first part of it |
| `Sweep.Reconciler.SweepOnce` | internal/agent/trigger_loop.go:26-44 | Calls from the zero position, with any finite number of failed queries among them, attempt every due row exactly once in key order, then reset; a cancelled sweep attempted a first part of that list |
| `SweepTables.EvaluatedIsNotDue` | internal/agent/trigger_loop.go:48-50 | An evaluation that commits, with something due or not, leaves its row not due at its reading, and no later step changes that |
| `SweepTables.EvaluateAll` | internal/agent/trigger_loop.go:65-76 | The attempts of a sweep run on the trigger store keep its invariant, and every row whose attempt commits ends not due at that attempt's reading |
| `SweepTables.CompletedSweepSettles` | internal/agent/trigger_loop.go:46-82 | A completed sweep whose attempts all commit leaves no row of its due set due at the reading of its own attempt |
| `Paths.JoinSplit` | internal/safepath/tree.go:21-43 | Splitting a path and joining it gives the path back |
| `Paths.SplitJoin` | internal/safepath/tree.go:21-43 | Joining components free of the separator and splitting gives them back |
| `Paths.SplitIsClean` | internal/safepath/tree.go:21-55 | The components of an accepted path or link target are non-empty and free of separators and NUL |
| `Paths.TreeTextExactly` | internal/safepath/tree.go:70-80 | The text check admits exactly the non-empty UTF-8 encodings of scalar values that are no control characters, without a backslash |
| `Paths.PrintablePathExactly` | internal/safepath/tree.go:21-43 | A path of printable components is valid exactly when it is the root, or has at most 128 components of 1 to 255 bytes, none a dot or dot-dot, and fits 4096 bytes under its mount |
| `Paths.PrintableLinkExactly` | internal/safepath/tree.go:45-55 | A link target of printable components is valid exactly when each has 1 to 255 bytes and they fit 4095 bytes |
| `ArtifactTree.ChargeNameBytes` | internal/artifact/tree.go:187-202 | A charge is refused exactly when the true total leaves the budget, without overflow on the way |
| `ArtifactTree.EntryStep` | internal/artifact/tree.go:321-362 | The running tables refuse an entry exactly when it spoils the enumeration |
| `ArtifactTree.Enumerate` | internal/artifact/tree.go:315-362 | The loop accepts exactly the lists of valid, pairwise distinct entries within both budgets, and its totals are the true sums |
| `ArtifactTree.ParentsEnumerated` | internal/artifact/tree.go:381-390 | The parent check holds exactly when every entry lies in an enumerated directory |
| `ArtifactTree.Inspect` | internal/artifact/tree.go:288-392 | Inspection accepts exactly the acceptable enumerations and returns their lookup table |
| `ArtifactTree.InodeNumbersAreExact` | internal/artifact/tree.go:329-380 | Inode numbers of an accepted tree are exactly 1 to the superblock count, each used once |
| `ArtifactTree.RunningTotalsFit` | internal/artifact/tree.go:319-362 | After every entry both totals are true sums within their limits and within int64 |
| `ArtifactTree.EntriesAreNormalized` | internal/artifact/tree.go:434-486 | An accepted tree has only files, directories and links, in their inode forms and modes, owned by root, without times or extended attributes, files and links with one name |
| `ArtifactTree.SmallTreeExactly` | internal/artifact/tree.go:288-392 | A root with one entry is accepted exactly when that entry is valid |
| `ArtifactTree.PrefixesAreDirectories` | internal/artifact/tree.go:381-390 | Every proper prefix of an enumerated path is an enumerated directory |
| `ArtifactTree.LinksAreClean` | internal/artifact/tree.go:434-486 | Link targets of accepted trees split into clean components |
| `ArtifactTree.PathsAreClean` | internal/artifact/tree.go:434-486 | Paths of accepted trees split into clean components, none a dot or a dot-dot |
| `Resolver.WalkFollows` | internal/artifact/program_manifest.go:151-199 | Pushing a link target in front of the pending components is following it recursively |
| `Resolver.WalkIsResolve` | internal/artifact/program_manifest.go:151-199 | The bounded worklist walk equals the recursive link-following walk that rejects an end on a dot or a dot-dot |
| `Resolver.WalkLands` | internal/artifact/program_manifest.go:151-199 | A successful walk ends on an enumerated non-link whose proper prefixes are enumerated directories and whose components are no dots |
| `Resolver.DirectWalk` | internal/artifact/program_manifest.go:151-199 | A path that stands by itself is walked without using a hop |
| `Resolver.CanonicalMeansNoLink` | internal/artifact/program_manifest.go:127-138 | A path that resolves to itself followed no link |
| `Resolver.KeyIsInjective` | internal/artifact/program_manifest.go:179-183 | The visited key determines the walk state |
| `Resolver.CycleRunsOut` | internal/artifact/program_manifest.go:151-199 | A walk that returns to a state fails for every hop bound |
| `Resolver.RevisitRunsOut` | internal/artifact/program_manifest.go:179-183 | Reaching a visited state means the plain bounded walk runs out of hops |
| `Resolver.ExpandLink` | internal/artifact/program_manifest.go:170-186 | A link is expanded in front of the rest unless its state was visited, in which case the bounded walk runs out of hops |
| `Resolver.WalkPath` | internal/artifact/program_manifest.go:147-199 | The loop terminates and returns what the bounded walk returns, except that it may report a cycle where the bounded walk runs out of hops |
| `Resolver.ResolveProgramArtifactPath` | internal/artifact/program_manifest.go:140-200 | Invalid paths are refused; otherwise the result is the recursive resolution up to the cycle report, and a success lands on a clean non-link path |
| `Resolver.VerifyDeclarationModule` | internal/artifact/program_manifest.go:127-138 | Accepts exactly the generated entry modules that are enumerated regular files reached without a link |
| `Resolver.DeclarationModuleExactly` | internal/artifact/program_manifest.go:127-138 | The generated entry modules are exactly the names with digits between the two fixed ends |
| `Resolver.AcceptedPathsResolveToThemselves` | internal/artifact/tree.go:315-391 | In every accepted tree each non-link path except the root resolves to itself without using a hop |
| `Resolver.AcceptedLinksAreClean` | internal/artifact/tree.go:434-486 | What the resolver requires of link targets holds of every accepted tree |
| `Resolver.WalkIsClean` | internal/artifact/program_manifest.go:140-200 | A walk over clean components returns clean components |
| `Glob.GlobPatternSource` | internal/archive/tar.go:331-364 | The index loop emits the anchored rendering of the pattern's tokens |
| `Glob.SourceParses` | internal/archive/tar.go:331-364 | That rendering parses back, as a regular expression, to the tokens' items and nothing else |
| `Glob.ItemsMeanGlob` | internal/archive/tar.go:331-364 | The items accept exactly what the recursive matcher accepts on the raw pattern |
| `Glob.TranslationMeansGlob` | internal/archive/tar.go:315-364 | The expression always compiles and accepts a newline-free path exactly when the glob matches it |
| `InstalledArchive.VisitIsExact` | internal/archive/installed.go:48-121 | The pruned walk visits exactly the paths below a folder with no excluded prefix, each once |
| `InstalledArchive.RootVisitIsExact` | internal/archive/installed.go:48-124 | From the root it visits exactly the paths of the tree with no excluded prefix |
| `InstalledArchive.ChargeAllIsFits` | internal/archive/tar.go:253-269 | Charging path by path succeeds exactly when every path is valid and all totals fit, and leaves the true totals |
| `InstalledArchive.ListingOrderIsIrrelevant` | internal/archive/installed.go:48-124 | Two listings of the same tree, in any order, charge the same and select the same paths |
| `InstalledArchive.SameVerdict` | internal/archive/tar.go:253-269 | The verdict and totals depend only on which paths are visited |
| `InstalledArchive.SortedIsUnique` | internal/archive/installed.go:125-127 | A set of paths has one sorted list, so the emitted order does not depend on the listing |
| `InstalledArchive.FoldersPrecedeTheirContents` | internal/archive/installed.go:125-127 | In the emitted order a folder comes before all that lies below it and nothing else comes in between |
| `InstalledArchive.SortEntries` | internal/archive/installed.go:125-127 | Sorting returns the sorted list of the same paths |
| `InstalledArchive.Collector.Collect` | internal/archive/installed.go:48-124 | The recursive collection records and charges exactly the visit, stopping at the first path that does not fit |
| `InstalledArchive.Collector.Child` | internal/archive/installed.go:59-113 | One child is skipped when excluded and otherwise charged, recorded and, for a folder, collected |
| `InstalledArchive.AppendInstalledTree` | internal/archive/installed.go:44-128 | Fails exactly when the visible paths, in any order, do not fit; otherwise emits their sorted list, with the name total and the root's byte |
| `InstalledArchive.InstalledBudgetIsSized` | internal/archive/installed.go:67-102 | The checks of the installed walk meet what the charging theorems ask of a budget |
| `InstalledArchive.RepresentableMeansValid` | internal/archive/installed.go:70-102 | With the verifier's file limit the producer takes a path exactly when the verifier admits the normalized entry it makes of it and the path fits on the host |
| `InstalledArchive.TreePathsAreTriedTwice` | internal/archive/tar.go:302-329 | A path of the tree is always tried both as it is and as a directory |
| `InstalledArchive.BudgetsAgree` | internal/artifact/tree.go:187-202 | The producer's name total, root byte included, equals the verifier's charges over any enumeration of the root and the visible paths, in whatever order, and both refuse together |
| `InstalledArchive.EmittedTreeIsChargedAlike` | internal/artifact/tree.go:319-325 | What the producer emits, with the total it reports, the verifier charges to that very total |
| `InstalledArchive.CompileExcludeMatchers` | internal/archive/tar.go:302-329 | Compilation never fails and a path is excluded exactly when some non-blank pattern matches it or it as a directory |
| `Supervision.StepKeeps` | cmd/dispatcher/main.go:175-208 | Every step keeps the invariant: one logged outcome per runner that sent, contexts and phases in order |
| `Supervision.SendNeverBlocks` | cmd/dispatcher/main.go:178-193 | A runner about to send always finds room in the channel |
| `Supervision.NoDeadlock` | cmd/dispatcher/main.go:175-208 | Once the runner functions have returned some program step is always possible until the end |
| `Supervision.StepsRunOut` | cmd/dispatcher/main.go:175-208 | Every step uses up a measure, so supervision cannot go on forever |
| `Supervision.SupervisionIsSound` | cmd/dispatcher/main.go:175-208 | In every interleaving: on return all runners have exited, each outcome was consumed exactly once, a runner's own error is reported exactly when its function failed, the result is nil exactly when every runner stopped cleanly, nil means the parent was cancelled, the run context has ended from the supervisor's cancel on, all within 5n + 6 steps |
| `Supervision.CancelledRunnersStopCleanly` | cmd/dispatcher/main.go:180-208 | In every interleaving a runner that has not looked at the run context when the supervisor cancels adds no error when it returns nil or the cancellation, and its own error when it fails |
| `HostSecret.StepKeeps` | cmd/worker/host_secret.go:34-151 | Every action keeps mutual exclusion, what the lock holder knows of the file, and the alternation of installs and removals |
| `HostSecret.RunKeeps` | cmd/worker/host_secret.go:34-151 | So does every run of any number of processes, with failures anywhere |
| `HostSecret.AlternationCounts` | cmd/worker/host_secret.go:34-151 | An alternating history has one more install than removals exactly when a secret is present |
| `HostSecret.EnrollmentIsConserved` | cmd/worker/host_secret.go:34-151 | From no file, installs equal removals plus one if a secret is present; no process installs more than twice or removes more than once |
| `HostSecret.OnlyRefusedSecretsAreRemoved` | cmd/worker/host_secret.go:131-151 | With fresh enrollments a process removes only the very secret it saw refused, no secret is installed twice, and a process finishes only with an installed secret of its own roots that was accepted from it |
| `HostSecret.ComparisonClearsTheRejected` | cmd/worker/host_secret.go:131-151 | The comparison leaves no file of the rejected identity and a file of another identity as it was |
| `HostSecret.RefusedSecretsAreNotRetried` | cmd/worker/host_secret.go:102-129 | Over every run with fresh enrollments: a first attempt presents a secret with nothing refused before it, a second attempt never one of an identity the process was refused, and a process that finishes was never refused its secret |
| `HostSecret.LoneProcessFinishes` | cmd/worker/host_secret.go:34-129 | From every state that keeps the invariant, a process left alone and accepted, whose ending has its roots, finishes: with the secret at hand, with the file's, or, without a file or after removing the refused one, with a newly enrolled one, which is then the file |
| `HostSecret.UnrefusedProcessesShareOneSecret` | cmd/worker/host_secret.go:47-100 | Racing processes that are never refused enroll once between them and all end with that secret, which is the file |
| `HostSecret.NoDeadlock` | cmd/worker/host_secret.go:288-305 | While any process is unfinished, some process can take a step other than failing |
| `HostSecret.StepsRunOut` | cmd/worker/host_secret.go:102-129 | No process takes more than eighteen steps, so it resolves at most twice |
| `ServiceUpdate.UpdateKind` | dev/runtime/host.py:407-416 | An update is accepted exactly when the retained runtime inputs are unchanged, without a reset the schema too, and without either option the dispatcher inputs; it replaces the control plane, and the dispatcher exactly with a reset or on request |
| `ServiceUpdate.UpdateIsAdmittedExactly` | dev/runtime/host.py:673-770 | An update of an agreeing profile is refused exactly when one is pending, the candidate or its copy cannot be read, or one of them is not compatible with what is installed; otherwise it completes exactly when all of its writes are made |
| `ServiceUpdate.MaterializedIsReadable` | dev/runtime/host.py:390-404 | A directory whose manifest is computed from its files is readable exactly when it has both services, a full commit, full input digests and a Go toolchain |
| `ServiceUpdate.HexExactly` | dev/runtime/host.py:390-404 | The digest syntax is the given number of lower-case hexadecimal digits |
| `ServiceUpdate.Host.Perform` | dev/runtime/host.py:380-387 | One atomic write of the plan, or interruption before it |
| `ServiceUpdate.Host.Update` | dev/runtime/host.py:702-769 | The writes of an admitted update are made in plan order up to the interruption |
| `ServiceUpdate.Host.ApplyServices` | dev/runtime/host.py:673-770 | Refuses, is interrupted or completes, with exactly that profile |
| `ServiceUpdate.StartIsRefusedExactly` | dev/runtime/host.py:908-911 | After any sequence of updates and starts on an agreeing profile, starting is refused exactly when some update was interrupted after its first write, and otherwise finds all records in agreement |
| `ServiceUpdate.MarkedWhileUnderWay` | dev/runtime/host.py:702-769 | From the first write to the last but one the marker is present |
| `ServiceUpdate.PlanWritten` | dev/runtime/host.py:702-769 | What the whole plan leaves: replaced bytes, installed manifest, merged digests, schema, no marker |
| `ServiceUpdate.CompleteUpdateAgrees` | dev/runtime/host.py:702-769 | A complete update of an agreeing profile leaves bytes, installed candidate, digests and generation schema in agreement |
| `ServiceUpdate.CompleteUpdateInstallsTheAttempt` | dev/runtime/host.py:705-769 | It installs the attempt's bytes for the services it replaces, records its commit and source digest, and keeps bytes and digests of all others |
| `ServiceUpdate.UpdateIsGuarded` | dev/runtime/host.py:673-770 | Interrupted anywhere, an update leaves the marker or agreement; a marked profile refuses it unchanged |
| `ServiceUpdate.ProfileIsAlwaysGuarded` | dev/runtime/host.py:673-770 | After any sequence of updates and starts, each interrupted anywhere: the marker is present and everything refuses, or all records agree; whatever goes ahead finds agreement |
| `ServiceUpdate.RuntimeInputsNeverChange` | dev/runtime/host.py:407-416 | Over every run of updates, interrupted anywhere, the recorded Worker, guest, runtime-support and toolchain inputs stay those the profile was installed with |
| `BundleUpload.CheckPlan` | cmd/helmr/deploy.go:241-264 | A plan is accepted exactly when it is for this bundle, has no duplicate, and lists only local objects with their manifest descriptors |
| `BundleUpload.Matches` | cmd/helmr/deploy.go:253-262 | The descriptor search finds exactly the listed descriptors |
| `BundleUpload.PlanObjectUploads` | cmd/helmr/deploy.go:230-265 | An accepted plan lists exactly the missing objects, each once |
| `BundleUpload.StepWorker` | cmd/helmr/deploy.go:211-224 | One step of a batch worker: report, upload or final report, skipped only after a failed report |
| `BundleUpload.StepBatch` | cmd/helmr/deploy.go:209-226 | One step of any worker keeps the batch's account of attempts, stored objects and causes |
| `BundleUpload.UploadNext` | cmd/helmr/deploy.go:135-158 | One batch and its summary: a clean one advances the account and reports each item uploaded once, a stopped one has a failed report or an ended context, a faulty one a failed upload |
| `BundleUpload.ReportReconciled` | cmd/helmr/deploy.go:174-180 | Exactly the failed items of a reconciled batch are reported as uploaded, each once |
| `BundleUpload.UploadBatch` | cmd/helmr/deploy.go:187-228 | In any interleaving of the workers: each object of the batch attempted at most once and no other, and unless a report failed every object without an error is stored |
| `BundleUpload.Summarize` | cmd/helmr/deploy.go:140-147 | Whether an upload failed and whether one was never attempted |
| `BundleUpload.FailedAgain` | cmd/helmr/deploy.go:167-173 | Exactly whether the new plan still asks for a failed object of the batch |
| `BundleUpload.Reconcile` | cmd/helmr/deploy.go:159-180 | A successful reconciliation returns the missing objects, none of them a failure of the batch; it fails only when the plan or a report does or a failed object is still missing |
| `BundleUpload.CleanBatch` | cmd/helmr/deploy.go:151-155 | A clean batch keeps the loop's account of missing, attempted and counted objects |
| `BundleUpload.ReconciledBatch` | cmd/helmr/deploy.go:163-182 | So does a reconciled one, whose new plan is no longer than what was left |
| `BundleUpload.UploadObjects` | cmd/helmr/deploy.go:120-185 | Success leaves every bundle object stored; at most one replan, each digest attempted at most once, no reported index above the count, and on success exactly the first items reported as uploaded, each once; it fails only when a plan, a report or the context does, an upload was never sent, or after failed uploads were planned again something was still missing or another upload failed |
| `Permissions.Evaluate` | internal/auth/permissions.go:100-129 | Passes exactly when the permission holds, with the first allowing grant, which reaches the scope, as evidence; a denial names the first condition that is not met |
| `Permissions.PermissionExactly` | internal/auth/permissions.go:26-129 | A principal has a permission exactly when it is in the catalog, the organizations agree where both are set, a key's permission is assignable in the key's own environment, and a grant of it reaches the scope: organization-wide, for that environment, or for that agent where the permission is on agents only |
| `Permissions.RefusalIsTheFirstUnmet` | internal/auth/permissions.go:100-119 | A refusal before the grants names the first of its conditions that is not met, and there is none exactly when they all are |
| `Permissions.PermissionStaysInScope` | internal/auth/permissions.go:26-50 | A permission always rests on a grant of it for the organization or for that very environment and agent, never crosses organizations, and a key never acts outside its environment |
| `Permissions.PermissionIsAUnion` | internal/auth/permissions.go:120-128 | What grants permit together is the union of what they permit apart; order does not matter |
| `Permissions.AgentPermissionScope` | internal/auth/permissions.go:153-173 | All-agents is the check without an agent; the list has, once each, the agents some grant names in a spelling that passes |
| `Permissions.AllowsAgent` | internal/auth/permissions.go:26-50 | Naming an agent adds only the grants that name that agent |
| `Permissions.AgentScopeCoversEverySpelling` | internal/auth/permissions.go:151-173 | For any spelling, passing the check implies all or listed, and all implies passing |
| `Permissions.AgentScopeIsPointwise` | internal/auth/permissions.go:151-173 | With project and environment set and canonical ids, an agent passes the check exactly when the list is all or has it |
| `Permissions.SpellingPasses` | internal/auth/permissions.go:26-50 | Short of authority over all agents, the check passes for a spelling exactly when a grant of an agent-only permission uses that spelling |
| `Permissions.ListedMeansNamed` | internal/auth/permissions.go:158-171 | Short of that, the list has an agent exactly when such a grant names it in any spelling |
| `Permissions.SpellingAgreesExactly` | internal/auth/permissions.go:151-173 | For any spelling of an agent, list and check agree exactly when the check is refused outright, the permission is not agent-only, all agents are permitted, a grant uses this spelling, or none names the agent |
| `Permissions.OtherSpellingsAreRefused` | internal/auth/permissions.go:42-50 | With a canonical grant the agent is listed and its canonical spelling passes, yet the check of any other spelling of it is refused |
| `Permissions.AuditScope` | internal/auth/permissions.go:177-198 | Organization-wide exactly when the organization check passes; otherwise, once each, the environments some grant names where the check passes |
| `Permissions.AuditScopeIsPointwise` | internal/auth/permissions.go:175-198 | For a principal in an organization with each environment in one project, and API keys whose grants name environments, an environment passes the check exactly when the list is organization-wide or has it |
| `Retention.DecimalReadsBack` | internal/api/history_retention.go:14-44 | Decimal printing reads back as the number |
| `Retention.ValueWritesBack` | internal/api/history_retention.go:10-26 | A digit string without a leading zero is the decimal of its value |
| `Retention.RetentionIsExact` | internal/api/history_retention.go:14-29 | A positive count with a unit parses to its exact seconds when they fit int64 and is refused otherwise |
| `Retention.RetentionRefusesTheRest` | internal/api/history_retention.go:14-29 | Nothing else but never is accepted |
| `Retention.FormatUsesLargestUnit` | internal/api/history_retention.go:31-44 | Printing uses the largest unit that divides the retention and keeps every second |
| `Retention.RetentionRoundTrips` | internal/api/history_retention.go:14-44 | A value reads back as itself exactly when it is never or at least one second |
| `Retention.AcceptedTextIsCanonical` | internal/api/history_retention.go:14-44 | Accepted text prints back as it was exactly when its unit is the largest that divides it |
| `Retention.DurationIsExact` | internal/api/duration.go:12-40 | A well-formed duration is its exact milliseconds when they fit int64 and the bounds, and otherwise the matching error; no multiplication wraps |
| `Retention.OtherDurationsAreMalformed` | internal/api/duration.go:12-17 | The malformed error is given exactly to text that is not a positive decimal with a unit |
| `Retention.UnitsAgree` | internal/api/duration.go:12-40 | Duration units are the thousandfold of the retention units of the same name; only the millisecond is a duration unit alone |
| `Retention.WrapsAround` | internal/api/duration.go:35 | The 64-bit conversions keep a number within range up to a multiple of 2^64 |
| `Text.TrimSpaceIsExact` | internal/auth/permissions.go:143-149 | Trimming takes off the white space at both ends and nothing else |
| `Text.TrimmingIsUnique` | internal/auth/permissions.go:143-149 | Which determines the trimmed string |

## Left out

- Cron expressions, time zones and the tz database: a schedule is any lawful successor function.
- SQL, PostgreSQL locks, pgx and transaction mechanics: a transaction is one atomic step. The Session, Slack and Computer internals behind admission are one outcome: admitted, refused for good, or failed.
- Rebinding of a trigger's Slack destination between promotions.
- Scheduler.TriggerStore.SealDeletedAgent: the statement timestamp and the later clock reading of the insert are one reading.
- Scheduler.TriggerStore.EvaluateTrigger: a transaction that ends early because a lock or query fails is a rolled-back failure.
- Sweep.Reconciler.SweepOnce: the ticker between sweeps, the time limits of a query and an attempt, and rows that become due during a sweep.
- Filesystem superblock constants of the artifact verifier, media types, physical limits, and reading file contents.
- ArtifactTree.Inspect: the inode tables, maps in the source, are sets here; only membership and count are used.
- Glob.TranslationMeansGlob: non-ASCII patterns and paths with newlines; strings are character sequences and the expression is read by a parser for the subset the translation emits.
- InstalledArchive.AppendInstalledTree: tar headers, file contents, the bounded writer and errors of the host filesystem.
- Program manifests, canonical JSON, SHA-256 and module loading around the resolver.
- HostSecret.EnrollmentIsConserved: loss of an unsynced rename or removal at power failure; the contents of the enrollment exchange.
- ServiceUpdate.ProfileIsAlwaysGuarded: power loss that reorders unsynced directory entries; installing a profile, which starts it, and retiring or inspecting one. Each replacement and each JSON write is atomic.
- ServiceUpdate.Host.ApplyServices: evidence and result files, the attempt directory, and which service command fails.
- BundleUpload.UploadObjects: the bytes of an upload and its retries inside one attempt; the text of joined errors.
- Permissions.Evaluate: revisions, group and subject fields of the evidence, which are copied from the grant.
- The list of permissions and standard roles, role assignment levels, and audit records.
- HTTP handlers, command-line output, Docker, Firecracker and systemd calls.
