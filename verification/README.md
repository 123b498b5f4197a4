# Verified model of the homelab preview operator

The operator gives verdicts about pull requests. A PreviewCheck judges a preview
environment by up to four checks (readiness, http, trivy, smoke); a MigrationCheck runs an
app's migrations against a clone of its production database and tells a forge how that
went. Both are reconciled over an API server with optimistic concurrency, where every read
may be stale, every write may be refused or land unseen, and a cluster answers as it likes.
This project models those reconcilers, the smaller machines they lean on, and proves what
they keep over whole runs.

The shape is the same for both. A `…Pass` module says what one reconcile does, as a
function of the resource it read and of every answer it got; a `…Reconciler` class does it
in place, field by field, and each method is proved to compute that function. An
`…Invariants` module says what every stored status satisfies and what one pass may do to
it. A `…Protocol` module puts passes over a versioned store, with edits, deletions, stale
reads and lost writes in between, and the theorems are about all its runs. A `…Table` module
says exactly when each outcome of one pass comes about, in terms of what was read and in
the order of none of the tests the code makes.

| file | about |
|---|---|
| `PreviewApi`, `PreviewChecks`, `Jobs` | the PreviewCheck resource, one step of each check, the Jobs they run |
| `PreviewPass`, `PreviewReconciler` | one reconcile, as a function and in place |
| `PreviewInvariants`, `PreviewVerdicts`, `PreviewProtocol` | reachable statuses, what justifies a verdict, whole runs |
| `PreviewSteps`, `PreviewTable` | exact conditions: what each check says, and when a change is rejected, passed or given up on |
| `PreviewJobs` | finalizer, teardown and check Jobs, with passes that can be interrupted |
| `Kustomization`, `KustomizationTable`, `KustomizationRuns` | the annotation machine behind the gate: in place, move by move, and over runs |
| `Enrichment`, `Exploitability`, `ImageRef` | the exploit-intelligence client and its memo, thresholds, image references |
| `MigrationApi`, `MigrationClone`, `MigrationPass`, `MigrationReconciler` | names and deadlines, the snapshot clone, one reconcile as a function and in place |
| `MigrationInvariants`, `MigrationProtocol`, `MigrationRuns`, `MigrationDeadlines`, `MigrationObjects`, `MigrationTable` | reachable statuses, the store and the forge log, whole runs, bounded verdicts, created objects and teardown, exact conditions of every move and report |
| `HelmValues`, `HelmRelease` | dotted paths in nested maps, as trees and as linked maps changed in place |
| `LogDetail`, `Text`, `ApiServer` | log tails in messages, strings and sorting, write answers |

## What is assumed of the environment

- A status or metadata write lands only on the version it was computed from. A stored
  object changes only by the events of the run: passes, a request to delete, and, for a
  PreviewCheck, any edit of the spec the CRD admits. A MigrationCheck's spec is not
  immutable in the CRD; its runs keep it fixed.
- One reconcile of one resource runs at a time, as the work queue arranges.
- In `PreviewJobs` a list names exactly the live Jobs, and "unavailable" is only said of a
  namespace that is gone or going. Its conservation theorems hold for reads of the newest
  version; `JobsHeldExactly` says for any reads when they hold, and `StaleReadLeaks` is a
  run in which they do not.
- `spec.checks` holds the four known names, as the CRD enumeration demands.
- Kustomization marks are forged by nobody: what the environment does between passes may
  drop the patches-applied and credentials-patched annotations, not add them.
- CVE ids hold no comma where the memo is compared with fresh lookups, and the digest in the
  memo key does not collide. Check-run ids are not 0.
- A probe timeout fits a 64-bit duration; the CRD allows at most 3600 s.

## Where the code does less than it says

- `ForeignSuspendReopensGate`: the credentials mark survives a suspension that the operator
  did not make itself, so preparing the Kustomization again can open the gate over patches
  rendered without credentials (kustomization_controller.go:132-145).
- `VerdictGoesUncounted`: the counters follow an acknowledged write, so a status write that
  lands although its answer is an error leaves a verdict uncounted for ever
  (previewcheck_controller.go:576-639, against docs/preview-check.md:238).
  `CountersExactlyRight` has the exact condition.
- `ReadErrorsPostponeVerdict`: an error reading the namespace, or the Kustomization of a
  namespace that fits, is returned even past the run deadline, so only the TTL bounds a run
  without assumptions (previewcheck_controller.go:266-267 and 316-318).
- `StaleReadLeaks`: a reconcile from a cache that still holds the version before a deletion
  creates a Job after the finalizer that would have removed it has gone.
- `ImageMayAppear`: the rules on app, image and revision compare two values, so the CRD
  lets each be added where it was absent and removed where it was not, although it calls
  them immutable (api/v1/previewcheck_types.go:53-87); an image added mid-run changes what
  is judged. No other theorem depends on it.
- `LostRecordIsCancelled`, `UnansweredReportIsCancelled`: if the write that records a report
  is lost, or the report reaches the forge and its answer does not come back, deleting the
  check reports "cancelled" over the verdict already told. `CancelledOverVerdictExactly` has
  the exact condition, `RecordedVerdictIsNotCancelled` its half over whole runs.
- `FailedWithoutLooking`, `DeadlineCountsAsFailed`: a failed Job counts against the change
  over a pod that never started exactly when the pods could not be listed, and whatever
  reason the Job failed for, its own deadline included. `FailedExactly` is the rule.
- `TTLEndsWithoutVerdict`: a MigrationCheck past its TTL is deleted, not Expired;
  `VerdictByDeadlines` says what its other deadlines give.
- `TeardownForgetsContent`: teardown ignores the errors of deleting the snapshot content,
  the Secret and the old production snapshot.
- `HugeTTLExpiresAtOnce`: `ttlSeconds` has no upper bound and the product wraps.
- `SecondPassQuiet`, `BracketsDivergeExactly`: with one path leading through another the
  release is rewritten at every pass, and an array path is left out of the rendered patch
  but written literally by the direct one, which shows unless it is there already.
- `CommaCollides`: an id with a comma can be served another list's answer.

## Model

| member | source | states |
|---|---|---|
| PreviewProtocol.VerdictIsFinal | internal/controller/previewcheck_controller.go:166-174 | over every run with stale reads, edits, deletions and refused or unacknowledged writes, a stored verdict and the whole status around it never change |
| PreviewProtocol.CountedExactlyOnce | internal/controller/previewcheck_controller.go:580-639 | verdict and check counters plus what landed unseen equal the stored verdict and the stored finished checks, each once; with every landed write acknowledged nothing is missing |
| PreviewProtocol.CountersExactlyRight | internal/controller/previewcheck_controller.go:580-639 | the verdict counter, and the check counters, are right if and only if no write that announced a verdict, or a finished check, landed unacknowledged |
| PreviewProtocol.VerdictGoesUncounted | internal/controller/previewcheck_controller.go:580-639 | whatever the spec, a run of three passes from the start stores a verdict with the counter at nothing |
| PreviewProtocol.ChecksRunInOrder | internal/controller/previewcheck_controller.go:396-513 | in every reachable status the recorded checks are a prefix of the selected ones, all but the last clean; a failed one stands only under Failed or Expired; Passed holds exactly when every selected check is recorded as Passed, or Skipped for smoke |
| PreviewProtocol.ClockIsStampedOnce | internal/controller/previewcheck_controller.go:176-187 | startedAt and expiresAt never move once stamped, whatever happens to the spec |
| PreviewProtocol.VerdictIsJustified | internal/controller/previewcheck_controller.go:249-357 | every reachable verdict is in the (phase, reason) table and some pass over the version before it was given the answers that justify it |
| PreviewProtocol.VerdictByDeadline | internal/controller/previewcheck_controller.go:332-343 | once as many passes landed past the run deadline, with every read they needed answered, as there were unfinished checks, there is a verdict |
| PreviewProtocol.VerdictByExpiry | internal/controller/previewcheck_controller.go:189-195 | at or past expiresAt one landed pass gives the verdict, whatever the cluster answers |
| PreviewProtocol.LateProgress | internal/controller/previewcheck_controller.go:435-512 | every landed late pass without a verdict finishes one more check; nothing else ever un-finishes one |
| PreviewProtocol.NextIsSound | internal/controller/previewcheck_controller.go:129-221 | every store event keeps: good statuses, legal successions of versions, and counters in step with the newest status |
| PreviewProtocol.FinalizerAsked | internal/controller/previewcheck_controller.go:139-161 | a pass removes the finalizer only from a resource being deleted and torn down, and adds it only where it is missing |
| PreviewInvariants.PassIsGood | internal/controller/previewcheck_controller.go:129-221 | a status write of one pass comes only over an unfinished check, keeps the status invariant and moves the counters due by exactly what it announces |
| PreviewInvariants.AdvanceIsGood | internal/controller/previewcheck_controller.go:396-513 | with the gate open exactly the next check is advanced; a late pass always writes, and finishes one check or decides |
| PreviewInvariants.NextCheck | internal/controller/previewcheck_controller.go:396-411 | the check that runs next is the one after the finished prefix, and recording it keeps the prefix shape |
| PreviewInvariants.FinishedExactly | internal/controller/previewcheck_controller.go:717-744 | in a status without a verdict, the finished checks are exactly the counted prefix and at least one is left |
| PreviewInvariants.CompleteExactly | internal/controller/previewcheck_controller.go:736-744 | a clean prefix has nothing unfinished exactly when it is complete |
| PreviewInvariants.SettledStepCarries | internal/controller/previewcheck_controller.go:447-458 | past the deadline every step is terminal, and its phase and reason are a verdict of the table |
| PreviewVerdicts.ChecksMoveOnlyGuarded | internal/controller/previewcheck_controller.go:197-220 | no check moves and no Job creation is sent unless this pass saw the labelled namespace of the right app and the gate open |
| PreviewVerdicts.NoCheckOnHalfRenderedPreview | internal/controller/previewcheck_controller.go:361-392 | a PreviewCheck that reads any Kustomization stored between the notice of a change and the commit of its credentials moves no check and sends no Job creation |
| PreviewVerdicts.VerdictsAreJustified | internal/controller/previewcheck_controller.go:249-357 | NamespaceGone only with the namespace recorded before, KustomizationNotReady only late and on Ready=False, EnrichmentUnavailable as Failed only after a 4xx, Expired only at a deadline or without an endpoint |
| PreviewVerdicts.LatePassDecides | internal/controller/previewcheck_controller.go:332-343 | a late pass past the expiry or with every read it needs answered decides, or reduces the unfinished checks by exactly one |
| PreviewVerdicts.ExpiredPassDecides | internal/controller/previewcheck_controller.go:189-195 | past expiry the pass writes Expired/Timeout and nothing else |
| PreviewVerdicts.ReadErrorsPostponeVerdict | internal/controller/previewcheck_controller.go:249-318 | a late pass writes a status if and only if it is past the expiry, or the namespace was read and, where it fits, the Kustomization too; otherwise it ends in an error |
| PreviewPass.Position | internal/controller/previewcheck_controller.go:717-724 | the first entry of a name, or the length when there is none |
| PreviewPass.FirstUnfinished | internal/controller/previewcheck_controller.go:396-411 | the first selected check not finished; none exactly when all are |
| PreviewReconciler.PreviewCheckPass.Reconcile | internal/controller/previewcheck_controller.go:129-221 | the in-place reconcile computes the pass the run theorems are about |
| PreviewReconciler.PreviewCheckPass.ResolveNamespace | internal/controller/previewcheck_controller.go:249-300 | in-place namespace resolution computes its specification |
| PreviewReconciler.PreviewCheckPass.CheckGate | internal/controller/previewcheck_controller.go:312-357 | in-place gate test computes its specification |
| PreviewReconciler.PreviewCheckPass.RunChecks | internal/controller/previewcheck_controller.go:396-411 | the loop over the selected checks advances exactly the first unfinished one |
| PreviewReconciler.PreviewCheckPass.AdvanceCheck | internal/controller/previewcheck_controller.go:414-513 | in-place advance of one check computes its specification |
| PreviewReconciler.PreviewCheckPass.ApplyDeadline | internal/controller/previewcheck_controller.go:447-458 | the deadline turns an unfinished step into a failed one with the right reason |
| PreviewReconciler.PreviewCheckPass.Publish | internal/controller/previewcheck_controller.go:580-639 | phase, reason and completion time after publishing, and what is counted: the verdict only on the transition into it |
| PreviewReconciler.PreviewCheckPass.PublishStep | internal/controller/previewcheck_controller.go:478-512 | which phase a finished or unfinished step publishes |
| PreviewReconciler.PreviewCheckPass.UpsertCheck | internal/controller/previewcheck_controller.go:726-734 | in place, the entry of that name is replaced, or appended when there is none |
| PreviewReconciler.PreviewCheckPass.FindCheck | internal/controller/previewcheck_controller.go:717-724 | the first entry of that name, found by the loop |
| PreviewReconciler.PreviewCheckPass.AllChecksTerminal | internal/controller/previewcheck_controller.go:736-744 | true exactly when no selected check is unfinished |
| PreviewReconciler.PreviewCheckPass.AnyCheckStarted | internal/controller/previewcheck_controller.go:746-753 | true exactly when some entry is past Pending |
| PreviewApi.Spec.Defaulted | api/v1/previewcheck_types.go:193-217 | defaulting fills every field the reconciler relies on |
| PreviewApi.DefaultedKeepsGiven | api/v1/previewcheck_types.go:193-217 | defaulting keeps every value that was given and every field without a default |
| PreviewApi.DefaultedFillsIn | api/v1/previewcheck_types.go:193-223 | the value every open or inadmissible field gets |
| PreviewApi.NamespaceNamesDiffer | internal/controller/previewcheck_controller.go:197-206 | two pull requests never share a preview namespace |
| PreviewApi.DefaultedIdempotent | api/v1/previewcheck_types.go:193-217 | defaulting twice is defaulting once |
| PreviewApi.OrderedChecksExactly | internal/controller/previewcheck_controller.go:701-715 | exactly the selected checks, each once, in the fixed order however the spec listed them |
| PreviewApi.ComputeOrderedChecks | internal/controller/previewcheck_controller.go:701-715 | the loops over set and order compute that list |
| PreviewChecks.StepsSpeakTheVocabulary | internal/controller/previewcheck_checks.go:56-75 | every step of every check is one of the documented (phase, reason, override) triples, and asks for a Job only in a labelled namespace where none was found |
| PreviewChecks.TrivyPassesExactly | internal/controller/previewcheck_checks.go:155-294 | the trivy check passes if and only if a report about the image exists and there is no CVE, or a usable answer within both thresholds |
| PreviewChecks.TrivyPassIsEarned | internal/controller/previewcheck_checks.go:155-294 | over every memo history, a pass on a non-empty CVE list rests on the posts of this lookup on a miss, else on those of an earlier put for the same multiset of ids at most the time to live ago; they cover the list, each answered fresh from a loaded cache, and are within the thresholds |
| PreviewChecks.LookupWasEarned | internal/enrichment/client.go:164-203 | a usable answer is the merge of usable answers to every chunk of the list: those of this lookup on a miss, else those of the put the memo served from |
| PreviewChecks.MemoSource | internal/enrichment/client.go:267-293 | a memo entry for a sorted list comes from a put of the run for the same multiset of ids, at the entry's time, whose posts merge to its answer |
| PreviewChecks.MatchedExactly | internal/controller/previewcheck_checks.go:182-200 | "no report matched" holds exactly when no report is about the image |
| PreviewChecks.FindingsExactly | internal/controller/previewcheck_checks.go:182-200 | the collected ids are exactly those of the reports about the image |
| PreviewChecks.CollectFindings | internal/controller/previewcheck_checks.go:182-200 | the loop collects those ids and the last matching rendering |
| Jobs.EnsureJob | internal/controller/previewcheck_jobs.go:130-192 | a Job is handed out as created only where none was found, in a labelled namespace, and otherwise only when it was read as present |
| PreviewJobs.JobsAreHeld | internal/controller/previewcheck_controller.go:139-161 | with reads of the newest version, a live check Job in a namespace not being deleted finds its resource stored and holding the finalizer, in a namespace teardown will look in, in every run with edits, conflicts, reaping, restarts and namespaces that come and go |
| PreviewJobs.JobsHeldExactly | internal/controller/previewcheck_controller.go:139-161 | whatever versions passes read, every Job of a run stays held if and only if no Job creation lands after the resource is gone |
| PreviewJobs.GoesAfterItsJobs | internal/controller/previewcheck_controller.go:532-560 | the resource disappears only after its last Job did or with the whole namespace |
| PreviewJobs.JobsAppearGuarded | internal/controller/previewcheck_jobs.go:130-192 | a Job appears only through a pass whose read version was guarded: finalizer, labelled namespace, open gate |
| PreviewJobs.StaleReadLeaks | internal/controller/previewcheck_controller.go:414-513 | a run from a fresh resource, through guard, stamp, deletion and teardown, in which a pass that still reads the stamped version leaves a live Job without its resource |
| PreviewJobs.DeleteJobsExactly | internal/controller/previewcheck_controller.go:532-560 | a successful teardown removes exactly the listed Jobs unless the namespace was going; nothing else is touched; it succeeds exactly when no deletion met an error |
| PreviewJobs.TornExactly | internal/controller/previewcheck_controller.go:532-560 | a teardown ends well if and only if the namespace is unavailable, or the Jobs were listed and no deletion met an error |
| PreviewJobs.StoppedStaysStopped | internal/controller/previewcheck_controller.go:532-560 | after the first error nothing more is deleted |
| PreviewJobs.Cluster.TeardownJobs | internal/controller/previewcheck_controller.go:532-560 | the deletion loop computes that teardown |
| PreviewJobs.StepIsSound | internal/controller/previewcheck_controller.go:129-221 | every interleaved event keeps: Jobs held, the pass in flight consistent with the store |
| KustomizationRuns.GateShutAfterNotice | internal/controller/kustomization_controller.go:161-171 | after a change or a loss is noticed the gate is shut in every state until credentials are committed, for every answer and every environment step |
| KustomizationRuns.OpenedOnlyAfterRerender | internal/controller/kustomization_controller.go:190-197 | a gate that opens after a notice has seen fresh patches and then a credentials commit, in that order; the commit stored patches rendered with the Secret wherever the config asks for credentials |
| KustomizationRuns.ForeignSuspendReopensGate | internal/controller/kustomization_controller.go:132-145 | a Kustomization suspended by anyone else and prepared again can open the gate exactly when its credentials mark was still set, over patches without credentials, which are not the config's own exactly when a credential is mapped to a path that can be rendered |
| KustomizationRuns.PassMarks | internal/controller/kustomization_controller.go:84-249 | how one pass may change the two annotations the gate depends on |
| KustomizationRuns.StepProgresses | internal/controller/kustomization_controller.go:132-238 | with a stable config and succeeding calls each pass brings any non-legacy state strictly closer to rest, and infra-created is never reset |
| KustomizationRuns.ComesToRest | internal/controller/kustomization_controller.go:132-238 | after six passes every such state is at rest: unsuspended, rendered from the current config, patches present, credentials and infrastructure recorded; and it stays there |
| KustomizationRuns.SixPassesNeeded | internal/controller/kustomization_controller.go:132-238 | some state is not at rest after five |
| KustomizationRuns.LossIsNoticedOnce | internal/controller/kustomization_controller.go:215-225 | the cleared-patches reset cannot fire again, because rendered patches are never empty |
| Kustomization.BuildAllPatches | internal/controller/kustomization_patches.go:315-400 | the patch list is never empty, whatever the config |
| Kustomization.NegativeGateExactly | internal/controller/previewcheck_controller.go:361-392 | the gate is negative if and only if Flux has seen the Kustomization as it is now, unsuspended and with credentials, and says Ready=False, or Ready=True with another revision applied |
| Kustomization.KustomizationPass.Reconcile | internal/controller/kustomization_controller.go:84-249 | the in-place reconcile stores what the step function says |
| Kustomization.KustomizationPass.Prepare | internal/controller/preview_handler.go:101-148 | preparing in place stores fresh patches, the marks and the hash, unsuspended |
| Kustomization.KustomizationPass.UpdateDBCredentials | internal/controller/preview_handler.go:204-262 | committing credentials in place: nothing without a needed Secret, else the patches CommitCarriesCredentials speaks of |
| KustomizationTable.CommitCarriesCredentials | internal/controller/preview_handler.go:204-262 | the credentials mark is never committed over patches that lack credentials the config asks for |
| KustomizationTable.MoveExactly | internal/controller/kustomization_controller.go:84-249 | each of the eight moves is made if and only if its turn has come, what it needs was answered and its update landed; else nothing is stored |
| KustomizationTable.StoredExactly | internal/controller/kustomization_controller.go:84-249 | what each move stores, field by field, and a new generation exactly when suspension or patches changed |
| KustomizationTable.PatchesExactly | internal/controller/kustomization_patches.go:315-400 | which patches a config renders, and how many: strip patches for exactly the listed kinds, the others exactly where there is something to render |
| Kustomization.KustomizationPass.Reset | internal/controller/kustomization_controller.go:161-171 | a reset in place suspends and drops two marks, keeping infra-created |
| Enrichment.MergeIsConservative | internal/enrichment/client.go:248-265 | the merge is stale if any chunk is, empty if any cache is, and loses no result |
| Enrichment.MergeUsable | internal/enrichment/client.go:78-80 | the merge is usable exactly when every chunk is |
| Enrichment.MergeDatesOldest | internal/enrichment/client.go:248-265 | the merge is dated exactly when some chunk is, by the date of a chunk, and of the oldest that has one |
| Enrichment.ChunksCover | internal/enrichment/client.go:164-203 | the chunks concatenate to the whole list, none empty, none longer than 200 |
| Enrichment.UsableMeansEveryChunk | internal/enrichment/client.go:164-203 | a fetched answer is usable exactly when every chunk was answered usably, and carries all their results |
| Enrichment.FetchAll | internal/enrichment/client.go:164-203 | the loop over windows computes the uncached lookup, first error included |
| Enrichment.KeysAgreeExactly | internal/enrichment/client.go:295-298 | two id lists share a key exactly when their comma-separated pieces agree; without commas, exactly when they are the same multiset |
| Enrichment.CommaCollides | internal/enrichment/client.go:295-298 | with a comma in an id two different lists share a key |
| Enrichment.MemoAfterPut | internal/enrichment/client.go:277-293 | a put keeps the table within its bound and changes no other entry it keeps |
| Enrichment.ServedExactly | internal/enrichment/client.go:267-275 | an answer put is served for exactly fifteen minutes |
| Enrichment.KeptExactly | internal/enrichment/client.go:277-293 | a put keeps another entry exactly when it is fresh and fewer than 128 are |
| Enrichment.SecondLookup | internal/enrichment/client.go:164-203 | after a usable fetch the next lookup of the same ids in any order is served without a post for exactly fifteen minutes, and fetches afresh after that |
| Enrichment.FetchOutcome | internal/enrichment/client.go:164-203 | the first post that is not a response decides the error of the lookup: its status code, or unreachable |
| Enrichment.Enricher.MemoGet | internal/enrichment/client.go:267-275 | an entry is served only within its time to live |
| Enrichment.Enricher.MemoPut | internal/enrichment/client.go:277-293 | the eviction loop computes the specified table |
| Enrichment.Enricher.Lookup | internal/enrichment/client.go:164-203 | the whole lookup in place computes its specification, table included |
| Enrichment.MemoRefinesUncached | internal/enrichment/client.go:164-203 | however lookups interleave, a memoised answer was fetched usably for the same multiset of ids at most the time to live ago |
| Enrichment.MemoBounded | internal/enrichment/client.go:277-293 | the table never exceeds 128 entries and holds usable answers only |
| Enrichment.LookupIsTwoMoves | internal/enrichment/client.go:164-203 | a lookup is one or two of the atomic table actions of that interleaving |
| Exploitability.AcceptedExactly | internal/previewcheck/eval.go:200-229 | acceptable exactly when the number of known-exploited entries and every permille are within the inclusive maxima |
| Exploitability.JudgedExactly | internal/previewcheck/eval.go:200-229 | KEVExceeded exactly when more entries are known-exploited than allowed; EPSSExceeded exactly when not that, and some permille is over its maximum |
| Exploitability.KEVCountExactly | internal/previewcheck/eval.go:203-204 | the count is the number of positions whose entry is known-exploited |
| Exploitability.EvaluateExploitability | internal/previewcheck/eval.go:200-229 | the loop computes the judgement, the number of known-exploited entries and the peak, and names a CVE at the peak |
| Exploitability.Permille | internal/previewcheck/eval.go:232-240 | 0 up to 0, 1000 from 1, and in between the nearest permille, halves up |
| Exploitability.CVEsExactly | internal/previewcheck/eval.go:127-150 | the CVE list is sorted and holds exactly the trimmed CVE ids |
| Exploitability.IsCVEExactly | internal/previewcheck/eval.go:135-140 | an id counts as a CVE exactly when it starts with CVE and a dash in any case |
| Exploitability.ExtractCVEs | internal/previewcheck/eval.go:127-150 | the loop computes both lists, each id once |
| ImageRef.ParseOfRender | internal/previewcheck/eval.go:61-82 | parsing undoes rendering, the digest kept exactly when there is no tag |
| ImageRef.MatchesExactly | internal/previewcheck/eval.go:97-116 | for every well-formed reference: a scan matches an image pinned by digest exactly when it carries that digest, and any other exactly when repository, given registry and given tag agree, case aside but for the tag |
| ImageRef.DigestBeatsTag | internal/previewcheck/eval.go:97-116 | with both tag and digest in the reference only the digest counts |
| ImageRef.ParseInFull | internal/previewcheck/eval.go:61-82 | parsing a full reference, registry, tag and digest at once, loses nothing |
| ImageRef.RegistryExactly | internal/previewcheck/eval.go:55-82 | the first path segment is a registry exactly when it is localhost or holds a dot or a colon |
| ImageRef.MatchesOwnRendering | internal/previewcheck/eval.go:97-116 | an artifact matches its own rendering |
| ImageRef.RegistryMayBeDropped | internal/previewcheck/eval.go:97-116 | dropping the registry keeps a match exactly when the reference is pinned by digest or its repository does not start host-like |
| ImageRef.MatchIsVisible | internal/controller/previewcheck_checks.go:182-200 | a matching artifact never renders to the empty string the check tests for |
| LogDetail.Bounds | internal/previewcheck/eval.go:367-376 | a log tail is at most 2052 bytes, a cut message at most 4100, a tail is trimmed |
| LogDetail.TailExactly | internal/previewcheck/eval.go:367-376 | a cut log keeps its end from behind the first line break in the window, or the whole window when there is none or it is the last byte |
| LogDetail.DetailRecovered | internal/controller/migrationcheck_report.go:141-147 | headline and tail are recovered from the stored message exactly when the joined text fits in 4096 bytes |
| LogDetail.ShortHeadlineRecovered | internal/controller/migrationcheck_controller.go:606-611 | every headline of at most 2043 bytes is recovered, whatever the log |
| LogDetail.LongHeadlineLost | internal/controller/migrationcheck_controller.go:606-611 | 2043 is sharp: every longer headline is lost for some log |
| MigrationRuns.VerdictStands | internal/controller/migrationcheck_controller.go:126-147 | over every run the phase never goes back, start, clone, Secret, probe and expiry stay as first recorded, a verdict with its reason, message and times stands for ever, a check run id is never exchanged |
| MigrationRuns.CreatesAreConserved | internal/controller/migrationcheck_report.go:153-167 | check runs created on the forge are exactly the remembered one plus those not recorded, their answer or their recording write lost; at most one plus the losses |
| MigrationRuns.ReportedWasStored | internal/controller/migrationcheck_report.go:153-167 | every phase told to the forge was stored before the call; a cancellation only for a check already marked for deletion |
| MigrationRuns.NoProgressAfterCompletion | internal/controller/migrationcheck_report.go:79-137 | after a completed report no in-progress report follows, stale reads included |
| MigrationRuns.RecordedVerdictIsNotCancelled | internal/controller/migrationcheck_report.go:172-184 | a verdict told and recorded is never told over by a cancellation |
| MigrationRuns.CancelledOverVerdictExactly | internal/controller/migrationcheck_report.go:153-184 | whenever a pass sent a verdict to the forge, answered or not, the deletion that finds its status tells a cancellation to the same check run if and only if that run was known before and the report was not recorded: its answer was an error, or the recording write was refused |
| MigrationRuns.LostRecordIsCancelled | internal/controller/migrationcheck_report.go:172-184 | from any running reported check: a verdict told, its recording write refused, and the deletion that follows cancels over it |
| MigrationRuns.UnansweredReportIsCancelled | internal/controller/migrationcheck_report.go:161-164 | from any running reported check: a verdict that reached the forge without an answer coming back, no write refused, and the deletion that follows cancels over it |
| MigrationRuns.JudgementWasEarned | internal/controller/migrationcheck_controller.go:366-419 | Passed, and Failed with a probe, come only by three writes: Provisioning to Ready with the Secret, by a pass that saw the clone accept connections; Ready to Running with the Job, by one that had TTL left and got it; and one that ended a Running check on the Job outcome, Failed only with no observed image or configuration wait |
| MigrationRuns.WithoutProbe | internal/controller/migrationcheck_controller.go:126-147 | without a probe Running, Passed and Expired are unreachable and Failed means the clone could not be made |
| MigrationRuns.VerdictIsInTable | internal/controller/migrationcheck_controller.go:423-437 | every reachable verdict is in the table, is dated, and its message is at most 4100 bytes |
| MigrationRuns.FailedWithoutLooking | internal/controller/migrationcheck_controller.go:386-397 | whatever the pods really look like, a failed Job lands Failed over one that never started if and only if there is one and the pods could not be listed |
| MigrationRuns.FailedExactly | internal/controller/migrationcheck_controller.go:366-397 | a pass over an undecided check with a probe lands Failed if and only if the check is Running and at work, its Job failed, no stuck container was seen and the write was not refused |
| MigrationRuns.DeadlineCountsAsFailed | internal/controller/migrationcheck_controller.go:386-397 | a Job killed by its own deadline lands Failed if and only if no stuck container was seen: the reason is not looked at |
| MigrationDeadlines.VerdictByDeadlines | internal/controller/migrationcheck_controller.go:228-419 | over every run a check with a probe has its verdict once as many due passes landed as there were phases left, four at most |
| MigrationDeadlines.DuePassMovesOn | internal/controller/migrationcheck_controller.go:228-419 | a pass over a check whose phase is past its deadline moves it on if and only if what the phase depends on was answered and the write was not refused |
| MigrationDeadlines.RankGrows | internal/controller/migrationcheck_controller.go:126-147 | every due landing raises the phase, and nothing ever lowers it |
| MigrationDeadlines.TTLEndsWithoutVerdict | internal/controller/migrationcheck_controller.go:120-124 | at or past the TTL a pass asks for the deletion of the check and nothing else, and before it never does |
| MigrationRuns.ProbeHadItsBudget | internal/controller/migrationcheck_controller.go:327-356 | when the TTL reaps a running probe its whole budget has passed, up to the time between two clock readings of the starting pass; exactly so with one reading |
| MigrationApi.JobOutlivesBudget | internal/controller/migrationcheck_jobs.go:169-187 | the Job deadline is the budget plus 120 s, to the second, for every timeout 64-bit durations can hold |
| MigrationApi.TTLExactly | internal/controller/migrationcheck_controller.go:551-557 | a TTL means its seconds exactly up to 9223372036 |
| MigrationApi.HugeTTLExpiresAtOnce | internal/controller/migrationcheck_controller.go:560-567 | one second more and the product wraps: the check is expired before it was created |
| MigrationApi.OwnNameIsNotWarm | internal/controller/migrationcheck_controller.go:635-644 | no check id makes its own snapshot name a shared warm one |
| MigrationApi.CheckID | internal/controller/migrationcheck_controller.go:635-644 | the id is never empty and has no dash unless it starts with n |
| MigrationObjects.TeardownCovers | internal/controller/migrationcheck_controller.go:474-515 | whatever any pass of a run asked to create, lost writes included, a successful teardown deletes by name, or it is owner-referenced, inside the clone namespace, or a shared warm snapshot |
| MigrationObjects.WarmSnapshotsSurvive | internal/controller/migrationcheck_controller.go:474-515 | no teardown of any check in any state names a shared warm snapshot or its Backup |
| MigrationObjects.GoesAfterTeardown | internal/controller/migrationcheck_controller.go:98-108 | a resource under its finalizer goes only after a teardown of its newest status deleted probe Job and clone namespace |
| MigrationObjects.TeardownTargets | internal/controller/migrationcheck_controller.go:474-515 | teardown succeeds exactly when the probe Job and the namespace were not refused, then names every targeted object, and removes exactly what it named and was not refused |
| MigrationObjects.TeardownForgetsContent | internal/controller/migrationcheck_controller.go:501-511 | teardown lets the resource go if and only if neither probe Job nor clone namespace was refused, so content, Secret or old snapshot whose deletion was refused stay |
| MigrationObjects.LedgerIsAccounted | internal/controller/migrationcheck_controller.go:151-199 | every object any pass creates is one of the accounted kinds |
| MigrationProtocol.NextIsSound | internal/controller/migrationcheck_controller.go:87-148 | every step keeps good statuses, legal successions and a log consistent with the newest status |
| MigrationProtocol.PassContinuesChain | internal/controller/migrationcheck_controller.go:423-437 | the one or two landed writes of a pass continue the chain of versions legally |
| MigrationProtocol.LogAppended | internal/controller/migrationcheck_report.go:153-167 | one more call that fits the newest version keeps order, storage-before-report and the create count |
| MigrationInvariants.PassHasShape | internal/controller/migrationcheck_controller.go:87-148 | a pass is silent, cancels, republishes a stored verdict, or moves the check once, reports at most once after that write and records it last |
| MigrationInvariants.AdvanceLeaves | internal/controller/migrationcheck_controller.go:126-147 | every phase function leaves an explained move into a good status, or nothing |
| MigrationReconciler.MigrationCheckPass.Reconcile | internal/controller/migrationcheck_controller.go:87-148 | the in-place reconcile computes the pass the run theorems are about |
| MigrationReconciler.MigrationCheckPass.Provision | internal/controller/migrationcheck_controller.go:151-215 | in-place provisioning computes its specification: writes, calls and creations |
| MigrationReconciler.MigrationCheckPass.CheckReady | internal/controller/migrationcheck_controller.go:228-324 | the reads in their order, then Secret and status, as specified |
| MigrationReconciler.MigrationCheckPass.StartProbe | internal/controller/migrationcheck_controller.go:327-363 | the TTL test, the Job and the Running write, as specified |
| MigrationReconciler.MigrationCheckPass.CheckProbe | internal/controller/migrationcheck_controller.go:366-419 | the Job outcome becomes the specified verdict, message or wait |
| MigrationReconciler.MigrationCheckPass.Finish | internal/controller/migrationcheck_controller.go:423-437 | the verdict is written first and reported after, as specified |
| MigrationReconciler.MigrationCheckPass.Fail | internal/controller/migrationcheck_controller.go:616-623 | a provisioning error is Expired with a probe and Failed without |
| MigrationReconciler.MigrationCheckPass.PublishReport | internal/controller/migrationcheck_report.go:153-167 | one call and one recording write, only for a phase not yet reported |
| MigrationReconciler.MigrationCheckPass.ReportCancelled | internal/controller/migrationcheck_report.go:172-184 | one cancelling call for a check run still open, as specified |
| MigrationReconciler.MigrationCheckPass.EnsureProbeJob | internal/controller/migrationcheck_jobs.go:345-380 | get-or-create of the probe Job, and whether a creation was sent |
| MigrationReconciler.MigrationCheckPass.Teardown | internal/controller/migrationcheck_controller.go:474-515 | the deletions in order up to the first that stops it |
| MigrationReconciler.MigrationCheckPass.Delete | internal/controller/migrationcheck_controller.go:474-515 | one deletion: sent, removing the object unless refused, and ending the teardown only when it is a strict one |
| MigrationReconciler.ProbeWaitingFailure | internal/controller/migrationcheck_jobs.go:388-410 | the nested loops find the first stuck container of the first stuck pod |
| MigrationReconciler.EndpointsReady | internal/controller/migrationcheck_controller.go:692-699 | true exactly when some subset has a ready address |
| MigrationClone.CloneCreatesOnly | internal/controller/clone.go:57-147 | however far a clone gets it creates only its source snapshot or Backup, its content and two objects in the target namespace |
| MigrationClone.WarmSnapshotShared | internal/controller/clone.go:235-334 | a warm snapshot is deleted exactly when found past its age, restored from untouched when fresh and ready, and backed up cold only when that is allowed |
| MigrationClone.SnapshotCloner.CloneFromSnapshot | internal/controller/clone.go:57-147 | the walk in place sends exactly the specified creations and deletions |
| MigrationClone.SnapshotCloner.AcquireSourceSnapshot | internal/controller/clone.go:235-334 | acquiring the source snapshot in place, as specified |
| MigrationClone.SnapshotCloner.EnsureColdBackup | internal/controller/clone.go:340-359 | a failed leftover Backup is replaced before a new one is made, as specified |
| HelmValues.DirectIsRendered | internal/controller/preview_handler.go:1099-1104 | for prefix-free bracket-free paths, patching the values in place equals deep-merging the tree built from empty, in any two iteration orders |
| HelmValues.OrderIndependent | internal/controller/preview_handler.go:1099-1104 | the patched values do not depend on the iteration order |
| HelmValues.OrderMattersExactly | internal/controller/preview_handler.go:1099-1104 | two patches may be swapped exactly when neither path leads through the other |
| HelmValues.SecondPassQuiet | internal/controller/preview_handler.go:1099-1118 | a second walk in any order reports no modification if and only if the paths are prefix-free |
| HelmValues.ModifiedMeansChanged | internal/controller/preview_handler.go:1099-1104 | for prefix-free paths the reported flag says exactly whether the values changed |
| HelmValues.SetChangesExactly | internal/controller/preview_handler.go:1160-1182 | writing a path changes the tree exactly when the value was not there |
| HelmValues.BracketsDivergeExactly | internal/controller/kustomization_patches.go:166-178 | over any existing values the direct and the rendered patching agree if and only if every array path is in place there already as spelled |
| HelmValues.SetOfMerge | internal/controller/kustomization_patches.go:403-416 | a write into the merged tree is a write into the overlay |
| HelmRelease.Dir.SetNested | internal/controller/preview_handler.go:1160-1182 | on linked maps changed in place: the tree afterwards, and a flag true exactly when it changed |
| HelmRelease.EnsureValues | internal/controller/preview_handler.go:1096-1118 | the loop over the patches applies them all, valuesFrom is stripped, and nothing is reported exactly when no write changed anything and there was nothing to strip |
| PreviewProtocol.FinishedEntriesStand | internal/controller/previewcheck_controller.go:396-411 | over every run a finished check is never run again nor rewritten, and an unfinished one keeps its start |
| PreviewProtocol.NotDeletedEarly | internal/controller/previewcheck_controller.go:166-174 | the operator never deletes a check itself before it has a verdict and is a day past its expiry, stale reads included |
| PreviewProtocol.GoneWasThere | internal/controller/previewcheck_controller.go:249-300 | Failed/NamespaceGone is only reached after a pass of the run saw a labelled preview of the right app there |
| PreviewProtocol.ExpiryWasStamped | internal/controller/previewcheck_controller.go:176-187 | the expiry is the TTL of the spec at the stamping pass, counted from that pass's clock |
| PreviewProtocol.ImageMayAppear | api/v1/previewcheck_types.go:72-78 | a run in which an admitted edit adds an image mid-run and turns a trivy check that did not pass into one that does, over the same cluster |
| PreviewVerdicts.RecordsWhatItSaw | internal/controller/previewcheck_controller.go:249-300 | a write stamps the clock from this reading, and records the namespace only where the labelled preview was seen |
| Jobs.JobOutcomeExactly | internal/previewcheck/eval.go:273-295 | failed and succeeded in full: the first true Complete or Failed condition decides, and only without one the counters |
| PreviewChecks.ChecksPassExactly | internal/controller/previewcheck_checks.go:81-152 | readiness, http and smoke pass, smoke is skipped, and an unexpected status is blamed, if and only if |
| PreviewSteps.StepExactly | internal/controller/previewcheck_checks.go:56-360 | each check clears the change, condemns it, gives up or could not look if and only if its answers say so |
| PreviewSteps.ReasonExactly | internal/controller/previewcheck_checks.go:56-360 | each reason a check can give is given if and only if its answers call for it |
| PreviewSteps.TrivyExactly | internal/controller/previewcheck_checks.go:155-294 | every step the trivy check can take, if and only if, with the intelligence fresh and loaded, the error a 4xx, and both thresholds spelled out |
| PreviewSteps.JobStepExactly | internal/controller/previewcheck_jobs.go:130-192 | every step a Job check can take, if and only if: passed, failed, quota, namespace going, waiting, unread |
| PreviewTable.RejectedExactly | internal/controller/previewcheck_controller.go:249-513 | a pass rejects a change if and only if its preview vanished or is another app's, Flux refuted it by the deadline, or the next check condemns it |
| PreviewTable.PassedExactly | internal/controller/previewcheck_controller.go:396-513 | a pass passes a change if and only if the gate is open and the last of its checks clears it |
| PreviewTable.ExpiredExactly | internal/controller/previewcheck_controller.go:189-513 | a pass gives up if and only if past the expiry; past the deadline with both gating reads answered and neither a rejection nor a clearing check; or with CVEs and nobody to ask |
| PreviewTable.ShutGateExactly | internal/controller/previewcheck_controller.go:312-357 | at a shut gate: late, Failed if and only if Flux judged what is in front of it and found against it, else Expired; not late, Running if and only if a check has started |
| PreviewTable.UnfitExactly | internal/controller/previewcheck_controller.go:249-300 | over a namespace that does not fit: rejection, error or wait, each where it is due, and nothing else written |
| PreviewTable.RecordedExactly | internal/controller/previewcheck_controller.go:414-513 | with the gate open and its answers in, one entry is recorded for the next check, begun when it first was, ended now if over, with the reason its answers give or what the deadline makes of it |
| PreviewTable.AskedExactly | internal/controller/previewcheck_controller.go:414-513 | a Job is asked for, and the image under test recorded, if and only if the next check is the one that does so |
| PreviewTable.UpkeepExactly | internal/controller/previewcheck_controller.go:139-174 | finalizer added, finalizer removed, self-deletion and silence, each if and only if |
| PreviewTable.StampExactly | internal/controller/previewcheck_controller.go:176-187 | the first pass stamps start and expiry and nothing else |
| Kustomization.GateOpensExactly | internal/controller/previewcheck_controller.go:361-392 | the gate is open exactly when unsuspended, credentials in, Ready=True for this generation and the revision applied |
| KustomizationRuns.RestCarriesCredentials | internal/controller/preview_handler.go:204-262 | after a notice the machine comes to rest with exactly the patches of the current config, credentials included where it asks for them |
| Enrichment.MergeTakesMinima | internal/enrichment/client.go:248-265 | the totals of the merge are the minima over the chunks, and no unknown id is lost |
| MigrationInvariants.CloneAcceptsExactly | internal/controller/migrationcheck_controller.go:228-282 | the clone counts as accepting exactly when cluster, endpoints and superuser all read as ready; a read error counts exactly where those before it were good |
| MigrationInvariants.ProbeJobExactly | internal/controller/migrationcheck_jobs.go:345-380 | a probe Job is got exactly in an opted-in namespace, present, made or raced for; waited for exactly when an old one terminates or quota refuses |
| MigrationTable.ProbeStartsExactly | internal/controller/migrationcheck_controller.go:327-363 | a Ready check with a probe lands Running if and only if TTL is left for the whole budget, the Job was obtained and the write not refused; with that Job recorded and the start stamped |
| MigrationTable.StartExactly | internal/controller/migrationcheck_controller.go:327-363 | everything a pass over a Ready check can land: Running, too little TTL, a wait with its message, or nothing; and the Job asked for exactly where none was found |
| MigrationTable.ReadyExactly | internal/controller/migrationcheck_controller.go:228-324 | a provisioning check lands Ready exactly when the clone accepts and its Secret is there, however late; it expires exactly when it does not, past its timeout, with a probe |
| MigrationTable.ProvisionExactly | internal/controller/migrationcheck_controller.go:151-215 | a check gets its clone recorded exactly when source, namespace and clone were had; it ends exactly when there is no source or the clone failed |
| MigrationTable.JudgeExactly | internal/controller/migrationcheck_controller.go:366-419 | everything a pass over a Running check can land, by Job outcome, stuck containers and budget |
| MigrationTable.JudgedExactly | internal/controller/migrationcheck_controller.go:366-419 | from any undecided check: Passed if and only if running and the Job succeeded; Failed if and only if the Job failed unstuck, or without a probe the clone did |
| MigrationTable.ExpiredExactly | internal/controller/migrationcheck_controller.go:228-419 | from any undecided check: Expired if and only if, with a probe, not cloned, not ready in time, too little TTL left, or never judged |
| MigrationTable.ReportsExactly | internal/controller/migrationcheck_report.go:153-184 | the forge is told if and only if a move other than to Ready is known to be stored, or a stored verdict was not told, or an open check run is deleted |
| MigrationTable.StuckReasonExactly | internal/controller/migrationcheck_jobs.go:388-410 | the first stuck container of the first stuck pod gives the reason, image or configuration by what it waits for |
| MigrationTable.VerdictIsDated | internal/controller/migrationcheck_controller.go:423-437 | a verdict is dated by the pass that gives it and leaves everything recorded of clone, Secret, probe and report |
| MigrationTable.VerdictTellsTheLog | internal/controller/migrationcheck_controller.go:366-397 | from a judged check headline and log tail are recovered from the stored message if and only if, joined, they fit in 4096 bytes |
| MigrationTable.WarmIsSharedExactly | internal/controller/migrationcheck_controller.go:176-199 | two checks use one warm snapshot name if and only if they clone the same cluster; it is looked for beside it and kept twelve hours |
| MigrationTable.UpkeepExactly | internal/controller/migrationcheck_controller.go:87-124 | finalizer added, finalizer removed and self-deletion, each if and only if |
| MigrationObjects.TeardownExactly | internal/controller/migrationcheck_controller.go:474-515 | exactly which deletions a teardown sends, and when it ends well, for every status |
| MigrationClone.CloneExactly | internal/controller/clone.go:57-334 | a clone succeeds, and asks for each of its objects, if and only if all that comes before went well |
| MigrationClone.CloneDeletesExactly | internal/controller/clone.go:235-359 | it deletes exactly a shared snapshot past its age, Backup first, and the leftover Backup of a failed attempt |
| MigrationApi.DeadlinesExactly | internal/controller/migrationcheck_controller.go:551-604 | TTL, ready timeout and probe budget in nanoseconds, defaults included, and at which instant each passes |
| MigrationApi.IDsDiffer | internal/controller/migrationcheck_controller.go:635-644 | the id is the first twelve characters of the dashless UID; different ids never share a clone, content or Job name |
| MigrationInvariants.StuckPodExactly | internal/controller/migrationcheck_jobs.go:388-410 | a probe is stuck exactly when some container of some listed pod waits for one of the six reasons |
| MigrationInvariants.SourceResolvedExactly | internal/controller/migrationcheck_controller.go:518-542 | overrides win, annotations fill in, postgres is the last resort for the namespace, and there is no source exactly when the name stays open or a needed read failed |
| MigrationRuns.ExpiryWasExplained | internal/controller/migrationcheck_controller.go:228-419 | every Expired check carries a reason its last pass was told: clone failed or not accepting in time, too little TTL, an observed wait, or a Job gone or past its budget |
| HelmValues.AgreesAfterApply | internal/controller/preview_handler.go:1099-1104 | with paths that lead apart every patch is in place at the end |
| HelmValues.SetElsewhere | internal/controller/preview_handler.go:1160-1182 | a write leaves every path that leads elsewhere as it was |
| HelmValues.PathExactly | internal/controller/preview_handler.go:1160-1182 | the dots of a key, and nothing else, lead down the tree |

## Left out

- Texts: messages, details, events and log lines, apart from the verdict message of a MigrationCheck, whose cut and recovery are in `LogDetail`; its headline is an input. Messages published while waiting are not cut by the code, so no bound is claimed for them.
- Requeue delays: passes happen in any order and at any time; a bound counts landed passes, not seconds.
- resolveHTTPTarget, resolveWorkloadImage, EvaluateWorkloadReadiness, classifyForbidden, parseProbeStatus and coldSnapshotEligible: reduced to their answers.
- Job, Deployment, Redis, S3 and OIDC object construction, resource limits, security contexts: field listings.
- The text of patches, YAML rendering and what kustomize does with them; a patch is what it was rendered from, and whether there is a value patch at all is modelled.
- `HelmRelease.Dir.SetNested`: the loop down the maps is a recursive method here; linked maps, update in place and the flag are kept, and no two keys share a map, as values read from one object never do.
- `HelmRelease.EnsureValues`: does not model the update of the object, so nothing is said about one that is refused.
- `MigrationClone.SnapshotCloner.AcquireSourceSnapshot`: the polling loops are one answer each, so nothing is said about how long they wait; a completed Backup whose snapshot is gone is not recovered by the code.
- `Exploitability.Permille`: over the reals; IEEE rounding and NaN are not modelled.
- `Text`: white space and case are ASCII, strings are sequences of bytes-as-characters.
- `MigrationRuns.ProbeHadItsBudget`: times are not cut to whole seconds as the API server stores them; the cut moves a start earlier, which favours the claim.
- `PreviewProtocol.ExpiryWasStamped`: times are not cut to whole seconds as the API server stores them either; start and expiry may both be stored up to a second earlier, and every deadline is measured from the stored ones.
- `JobDeadlineSeconds` in `MigrationApi`: the float that Seconds returns is taken as the exact number of seconds.
- Saturation of time differences and overflow of time sums; durations do wrap.
- Status fields that nothing reads back: observedGeneration, preview host, connection secret namespace, clone image.
- The CRD schema, RBAC, metrics registration, flag parsing, log streaming, charts.
- PR comments, the GitHub App's HTTP and tokens, provider and repository-prefix refusals: a report is answered with an id or fails, having reached the forge or not.
- The legacy flow of Kustomizations that are neither suspended nor marked, and updates of a Kustomization from a stale read beyond a refused write.
- Two resources with the same name in different namespaces sharing a Job label.
