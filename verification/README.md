# Verification models

Dafny models of the components of the repository that carry state, with proofs of what they keep over all inputs and
all runs.  `dafny verify dfyconfig.toml` checks everything.

| part | files | source |
|---|---|---|
| LLM projection protocol and its explorer | `Explorer`, `Projection`, `ProjectionChecks`, `ProjectionSafety`, `ProjectionVerdict`, `ProjectionRuns` | `docs/llm_projection_refactor/formal/explore_model.py` |
| admission and lifetime model | `Explorer`, `Admission` | `spec/execution/lifecycle_admission_model.py` |
| artifact lifecycle | `Artifacts`, `ArtifactRecovery`, `ArtifactReaping`, `ArtifactExposure`, `ArtifactManager`, `IsoTime`, `Collation` | `src/pal/artifact` |
| Telegram delivery | `Delivery`, `SendChain`, `Segments` | `providers/telegram/endpoint.py` |
| face panel | `FacePanel` | `plugins/st7789_face` |
| peer exchange | `PeerExchange` | `providers/websocket_bridge` |
| reference graph | `Closure`, `References`, `Components` | `scripts/audit_dead_code.py` |

## How the models are built

* **Projection and admission.** The two finite models become transition systems (`Explorer.System`) with arbitrary
  bounds and any number of scopes.  The two searches are methods over any such system.  What they report is proved
  against `Reachable`, which is defined by runs alone, and the safety of the protocol is proved without them, by an
  inductive invariant.  `ExploreProjection` and `ExploreAdmission` join both: they say what the searches must report
  when they are run on the two models.  The order in which the successors of a state are tried is left open, so the
  results hold for every order.
* **Artifacts.** The store is a value: records, representations, hot rows, managed trees with their files, owned
  sources.  The manager is a class over these fields, and each of its writing methods returns the ghost sequence of its
  single writes.  `Legal` says which writes are allowed in which state; every method is proved to make only such
  writes.  The process may stop between any two writes, so a crash leaves the store of a prefix of a legal sequence,
  and everything proved of legal sequences holds there.  Whether a removal succeeds is a parameter; a removal that
  fails may have lost some files.  `Reaped` and `Recovered` describe a whole reaping and recovery in one step and in no
  order; the loops of the manager are proved to compute them.
* **Delivery, face panel, peer exchange, reference graph.** Classes with the fields of the source, each method proved
  equal to a function on values; the theorems are about these functions and their runs.  Task outcomes, the clock,
  random choices, replies of the local Pal, lost connections and late callbacks are inputs of the runs, so that every
  interleaving is covered.

## What turned out differently from the source's own words

* `_maybe_idle_action` says that fidgets must not keep the face from falling asleep
  (`plugins/st7789_face/sidecar.py:332-334`).  The fidget leaves the idle clock alone, but its end goes through
  `set_state(self._base)`, which resets it (lines 199-207 and 318).  The promise holds if and only if the shortest delay
  between fidgets is not below the idle time (`SilenceSleepsIff`).  `NeverSleepsIff` says when a silent face never sleeps
  at all; the default settings, 14 to 32 seconds against an hour, are such a case.
* `_expire_expression` returns to the base pose, but a round of the render loop need not: an idle action that is due
  begins in the same round, before anything is drawn (`plugins/st7789_face/sidecar.py:471-473`).  `HoldSettles` and
  `TwoTicksSettle` give the exact conditions.
* `_schedule_ordered_send` does not always order the sends of a conversation.  A task cancelled before its first step
  never runs its `finally`, so it stays in `_send_chains`; the sends behind it are cancelled along with it, the last
  of them removes the entry, and the next one starts at once, even while an older send is still running.  The
  order is kept if and only if no task is cancelled before its first step while an earlier send of its
  conversation is not over (`TurnsKeptIff`).  The code cancels tasks without looking at that when it recovers its
  pending deliveries (`providers/telegram/endpoint.py:471-473`) and when it stops (lines 459-460).
* An access checks the expiry of an artifact and renews its hot row at two readings of the clock, and the renewal does not
  look at the expiry again (`src/pal/artifact/service.py:854` and 865-888).  An artifact that expires in between comes
  back (`RenewedAfterExpiry`).  `ExpiredForever` therefore depends on when the checks before the renewals were made;
  `HardCap` and `RefusedForever` do not.
* An access checks an artifact under the manager's lock and renews its hot row outside it
  (`src/pal/artifact/service.py:483-486`).  When another thread retires the artifact in between, a completely retired
  record gets a fresh hot row, and recovery does not take it back until it expires (`RacingRefreshLeavesRow`).
  `RecoverySettlesOne` says exactly when recovery settles an artifact.
* Recovery at shutdown puts every task that ended with an exception back into the outbox, also one whose failure was
  permanent, and a task that had succeeded but was not collected leaves without a delivered event
  (`providers/telegram/endpoint.py:476-508`).  The model does the same.
* The breadth-first search never checks the initial state.  For the projection model this is harmless, because
  the initial state passes the checks.
* With negative bounds the first transition already breaks `TypeOK` (`NegativeBoundsViolate`); `SafeIffSound` gives the
  exact condition under which all reachable states pass.

## Model

| member | source | states |
|---|---|---|
| `Explorer.Explore` | docs/llm_projection_refactor/formal/explore_model.py:149-172 | The breadth-first search ends; exhausted means the states discovered are exactly the reachable ones, the transitions counted are all there are, and none leads to a violation; a counterexample trace is a genuine run from the initial state to a violation, and no shorter run violates; the limit is reported only when more states exist; when it stops early, counted are all transitions of some states and part of those of the state it stopped at. |
| `Explorer.Trace` | docs/llm_projection_refactor/formal/explore_model.py:159-166 | Following the parent links from a state gives back the labels of the run recorded for it. |
| `Explorer.Expand` | docs/llm_projection_refactor/formal/explore_model.py:156-171 | Taking the transitions of one state keeps the table, the queue and the depths of the search, or stops with a justified outcome. |
| `Explorer.RecordState` | docs/llm_projection_refactor/formal/explore_model.py:167-171 | A new state extends the discovered runs by one and keeps the queue in layers of depth. |
| `Explorer.ShallowRunsDiscovered` | docs/llm_projection_refactor/formal/explore_model.py:154-171 | Every run no longer than the depth reached ends in a discovered state. |
| `Explorer.ExhaustedReach` | docs/llm_projection_refactor/formal/explore_model.py:172 | With an empty queue the parent table is exactly the set of reachable states, and no transition violates. |
| `Explorer.FirstViolation` | docs/llm_projection_refactor/formal/explore_model.py:158-166 | When a violation is found at some depth, no shorter run violates. |
| `Explorer.DegreeAdd` | docs/llm_projection_refactor/formal/explore_model.py:157 | The transition counter grows by the degree of the state processed, in whatever order states are processed. |
| `Explorer.ExploreDepthFirst` | spec/execution/lifecycle_admission_model.py:42-53 | The depth-first search over finitely many states returns a run to a violation, or no trace and then exactly the set of reachable states, all of them safe. |
| `Explorer.PushSuccessors` | spec/execution/lifecycle_admission_model.py:49-52 | The successors not seen before are marked and pushed with their traces. |
| `Explorer.RunsStayInside` | spec/execution/lifecycle_admission_model.py:43-53 | A set that contains the initial state and every successor of its members contains every reachable state. |
| `ProjectionSafety.ReachableSafe` | docs/llm_projection_refactor/formal/explore_model.py:68-89 | With sound bounds every reachable state passes all six checks, for any number of scopes; with the defect only the check of draft alignment can ever fail. |
| `ProjectionSafety.SlotChecked` | docs/llm_projection_refactor/formal/explore_model.py:69-88 | The inductive invariant of a slot implies the checks other than draft alignment. |
| `ProjectionChecks.CheckNamesFirst` | docs/llm_projection_refactor/formal/explore_model.py:68-89 | The check of a slot names the first of its six clauses that is broken, and nothing when none is. |
| `ProjectionChecks.FirstFinding` | docs/llm_projection_refactor/formal/explore_model.py:69-89 | The check of a state is that of the first slot with something to report. |
| `ProjectionChecks.SharedToken` | docs/llm_projection_refactor/formal/explore_model.py:87 | There are fewer different tokens than blocks if and only if two blocks share one. |
| `ProjectionChecks.ProjectMeans` | docs/llm_projection_refactor/formal/explore_model.py:57-59 | A projection pairs each block with its native form. |
| `ProjectionChecks.WhoChangesLineage` | docs/llm_projection_refactor/formal/explore_model.py:94-118 | Which transitions change generation, fence, attempt and endpoint, and how. |
| `ProjectionChecks.WhoChangesHistory` | docs/llm_projection_refactor/formal/explore_model.py:106-140 | Which transitions change the history and the native forms. |
| `ProjectionChecks.WhoChangesCache` | docs/llm_projection_refactor/formal/explore_model.py:96-118 | Which transitions change the cache and the sent prefix. |
| `ProjectionChecks.WhoChangesWork` | docs/llm_projection_refactor/formal/explore_model.py:99-140 | Which transitions change the draft. |
| `ProjectionChecks.WhoChangesPhase` | docs/llm_projection_refactor/formal/explore_model.py:94-140 | The phase each transition leads to. |
| `ProjectionChecks.OfferedIff` | docs/llm_projection_refactor/formal/explore_model.py:91-147 | A state offers exactly the transitions its slots may take and the callbacks under way. |
| `ProjectionChecks.LineageReached` | docs/llm_projection_refactor/formal/explore_model.py:106-112 | Every generation within the bounds is reached, from the first one on with either endpoint. |
| `ProjectionSafety.LocalKeeps` | docs/llm_projection_refactor/formal/explore_model.py:94-140 | Every transition of a slot keeps its invariant and never lowers its attempt. |
| `ProjectionSafety.LongerHistory` | docs/llm_projection_refactor/formal/explore_model.py:136-140 | A commit keeps the history closed, aligned and with strictly increasing attempts, so no token commits twice. |
| `ProjectionSafety.DeliverKeeps` | docs/llm_projection_refactor/formal/explore_model.py:141-147 | A callback keeps the invariant of the slot it is addressed to. |
| `ProjectionSafety.StepKeeps` | docs/llm_projection_refactor/formal/explore_model.py:91-147 | Every transition keeps the invariant of all slots and of the mail. |
| `ProjectionSafety.RunKeeps` | docs/llm_projection_refactor/formal/explore_model.py:149-172 | The invariant holds after every run. |
| `ProjectionSafety.MutantViolates` | docs/llm_projection_refactor/formal/explore_model.py:130-135 | Whenever the defective repair can be reached at all, three transitions break draft alignment. |
| `ProjectionSafety.NegativeBoundsViolate` | docs/llm_projection_refactor/formal/explore_model.py:71-75 | With a scope and a negative bound the very first transition breaks the typing check. |
| `ProjectionSafety.SafeIffSound` | docs/llm_projection_refactor/formal/explore_model.py:68-147 | All reachable states pass the checks if and only if the bounds are sound. |
| `ProjectionSafety.EarlySteps` | docs/llm_projection_refactor/formal/explore_model.py:91-147 | No run shorter than the replay breaks draft alignment. |
| `ProjectionVerdict.ReachableInUniverse` | docs/llm_projection_refactor/formal/explore_model.py:15-52 | Every reachable state lies in a finite set built from the bounds alone. |
| `ProjectionVerdict.ReachBound` | docs/llm_projection_refactor/formal/explore_model.py:149-172 | The number of reachable states is bounded by that of the finite set, so the search can exhaust them. |
| `ProjectionVerdict.ReportedMutant` | docs/llm_projection_refactor/formal/explore_model.py:186-202 | Unless a bound is negative, a shortest counterexample breaks draft alignment after three transitions. |
| `ProjectionVerdict.ExploreProjection` | docs/llm_projection_refactor/formal/explore_model.py:186-202 | Run on the projection model, the search reports exhaustion only for sound bounds and a counterexample only for unsound ones, then the three transitions of the defective repair unless a bound is negative; it stops at the limit only below a number of states computed from the bounds. |
| `ProjectionRuns.LateCallbackInert` | docs/llm_projection_refactor/formal/explore_model.py:141-147 | A callback that is late once changes no slot, however many transitions later it arrives. |
| `ProjectionRuns.StaleForever` | docs/llm_projection_refactor/formal/explore_model.py:141-147 | A token that is not the one its slot streams under never becomes it again. |
| `ProjectionRuns.BecomesStale` | docs/llm_projection_refactor/formal/explore_model.py:115-120 | Cancelling, restarting, closing or delivering makes a pending token stale. |
| `ProjectionRuns.DeliverTouches` | docs/llm_projection_refactor/formal/explore_model.py:141-147 | Delivery changes at most the phase of the token's own slot, and only while that slot streams under exactly this key. |
| `ProjectionRuns.DeliveredOnce` | docs/llm_projection_refactor/formal/explore_model.py:141-147 | In a run from the initial state no token is delivered twice. |
| `ProjectionRuns.DraftReturnsToIdle` | docs/llm_projection_refactor/formal/explore_model.py:119-140 | Every aligned draft can be brought back to Idle by at most two transitions a call and one more, without touching anything else. |
| `ProjectionRuns.BackFromTools` | docs/llm_projection_refactor/formal/explore_model.py:121-140 | The transitions that finish the tool calls and commit. |
| `ProjectionRuns.RepairWedges` | docs/llm_projection_refactor/formal/explore_model.py:130-135 | A repair wedges the draft with the defect, and leaves it aligned without. |
| `ProjectionRuns.WedgedForever` | docs/llm_projection_refactor/formal/explore_model.py:121-140 | A wedged slot never leaves its draft again, whatever else happens. |
| `Admission.UnbrokenReachable` | spec/execution/lifecycle_admission_model.py:18-39 | Exactly the admitted states are reachable, for any bound on cancellations, and none is a violation. |
| `Admission.ViolationMeans` | spec/execution/lifecycle_admission_model.py:34-39 | Which states are violations, and which violation is named. |
| `Admission.OfferedIff` | spec/execution/lifecycle_admission_model.py:18-31 | When each transition is offered. |
| `Admission.WhoChanges` | spec/execution/lifecycle_admission_model.py:18-31 | Which transition changes what. |
| `Admission.RunsEnd` | spec/execution/lifecycle_admission_model.py:18-31 | Every run has at most the bound plus four transitions; an unbroken run is stuck only when done with the writer released. |
| `Admission.BrokenLeaks` | spec/execution/lifecycle_admission_model.py:21-23 | With two cancellations the broken variant leaks a lease to an abandoned waiter. |
| `Admission.FewCancellations` | spec/execution/lifecycle_admission_model.py:21-23 | With fewer than two cancellations the broken variant has the same runs. |
| `Admission.BrokenSafeIff` | spec/execution/lifecycle_admission_model.py:18-39 | The broken variant is safe if and only if fewer than two cancellations are allowed. |
| `Admission.ExploreAdmission` | spec/execution/lifecycle_admission_model.py:42-53 | The search returns no trace if and only if the variant is safe, and then has seen exactly the reachable states; a trace is a run to a violation. |
| `Artifacts.StoppedIsLegal` | src/pal/artifact/service.py:212-245 | A sequence of writes stopped anywhere is a legal sequence. |
| `Artifacts.WriteKeeps` | src/pal/artifact/repository.py:28-53 | Every write keeps the rows filed under their records, completely retired records bare, and live ones backed by their files. |
| `Artifacts.RunKeeps` | src/pal/artifact/service.py:107-266 | So does every sequence of writes, wherever it is stopped. |
| `Artifacts.NoResurrection` | src/pal/artifact/service.py:184-213 | A retired record stays retired, since the same time and for the same reason, and a record keeps its scope. |
| `Artifacts.HardExpiryFixed` | src/pal/artifact/service.py:872-887 | The hard expiry of a hot row never moves while the artifact is live. |
| `Artifacts.HardCap` | src/pal/artifact/service.py:872-887 | An artifact is never visible at or after the hard expiry of its first hot row, whatever accesses occur. |
| `Artifacts.ExpiredForever` | src/pal/artifact/service.py:846-888 | What has expired once is never visible again, if every later renewal of its row follows a check made at or after the expiry. |
| `Artifacts.ComesBackIff` | src/pal/artifact/service.py:864-888 | A write makes an artifact visible that was not, if and only if it renews its row and both the renewed time and the hard expiry lie ahead. |
| `Artifacts.RenewedAfterExpiry` | src/pal/artifact/service.py:483-486 | When the row expires between the check of an access and its renewal, the renewal brings the artifact back, if and only if the hard expiry still lies ahead and the policy renews at all. |
| `Artifacts.LoneComesBack` | src/pal/artifact/service.py:854-888 | The smallest such case. |
| `Artifacts.FromEmpty` | src/pal/artifact/service.py:107-466 | Every store reached from the empty one satisfies the invariant, wherever the writes stop. |
| `Artifacts.LiveFilesKept` | src/pal/artifact/service.py:248-266 | No write ever removes a file of a live artifact. |
| `Artifacts.LiveHasFiles` | src/pal/artifact/service.py:447-464 | Wherever a run is stopped, a live artifact that is ready, at least in part, has its original, and every representation row of a live artifact has its file. |
| `Artifacts.ScopeNames` | src/pal/artifact/service.py:1176-1177 | The directory of a scope is never empty, has at most 96 characters, and replaces only what may not be kept. |
| `ArtifactRecovery.RetireLegal` | src/pal/artifact/service.py:172-246 | The writes of a retirement are legal whatever the removals do, and come to the tombstone or the bare, complete record. |
| `ArtifactRecovery.RetireOneMore` | src/pal/artifact/service.py:140-148 | Retiring candidates one after the other comes to retiring the set, in any order. |
| `ArtifactRecovery.RetiredTwice` | src/pal/artifact/service.py:189-213 | A second retirement keeps the time and the reason of the first, and a tombstone has no paths. |
| `ArtifactReaping.CandidateIffNotVisible` | src/pal/artifact/service.py:117-135 | Among live records, a reaping takes exactly those that may not be used any more. |
| `ArtifactReaping.ReapSpares` | src/pal/artifact/service.py:107-149 | A visible artifact comes through a reaping untouched, whatever fails. |
| `ArtifactReaping.ReapSettles` | src/pal/artifact/service.py:140-145 | What is reaped with success keeps only its complete record. |
| `ArtifactReaping.ReapReasons` | src/pal/artifact/service.py:119-146 | What is reaped has no paths, and says since when and why: for the first reason it was retired for, else a missing row, else an expired one. |
| `ArtifactReaping.ReapLeavesOtherScopes` | src/pal/artifact/service.py:120-129 | Reaping one scope leaves the artifacts of all others alone. |
| `ArtifactReaping.ReapKeeps` | src/pal/artifact/service.py:107-149 | Reaping keeps the invariant of the store, whatever fails. |
| `ArtifactReaping.RecoverySpares` | src/pal/artifact/service.py:151-170 | Recovery leaves a usable artifact exactly as it was, its files included, whatever fails. |
| `ArtifactReaping.RecoverySettlesOne` | src/pal/artifact/service.py:151-170 | Recovery whose removals succeed settles an artifact, if and only if its record was not complete with something other than an expired row left of it. |
| `ArtifactReaping.RecoveryTrees` | src/pal/artifact/service.py:296-356 | After such a recovery every managed tree belongs to an artifact that may be used. |
| `ArtifactReaping.RecoverySettles` | src/pal/artifact/service.py:151-170 | From every state a run can have been stopped in, one recovery whose removals succeed leaves each record complete and bare, or live with an unexpired hot row, and no other tree. |
| `ArtifactReaping.RecoveryTakesSources` | src/pal/artifact/service.py:268-287 | The owned source of what is retired is gone after such a recovery. |
| `ArtifactReaping.TreesAccounted` | src/pal/artifact/service.py:215-229 | Whatever fails, a tree that is left belongs to a live or retiring artifact, or its own removal is what failed. |
| `ArtifactReaping.RetrySettles` | src/pal/artifact/service.py:151-170 | A recovery that failed anywhere is made good by a later one that does not. |
| `ArtifactReaping.SettledRecovers` | src/pal/artifact/service.py:151-170 | Where everything is settled, recovery changes nothing. |
| `ArtifactReaping.RacingRefreshLeavesRow` | src/pal/artifact/service.py:483-486 | A retirement between check and renewal leaves a row that recovery cannot settle, unless the policy expires it at once. |
| `ArtifactExposure.ReaderAgreesWithWriter` | src/pal/artifact/service.py:692-805 | With and without write authority the prompt shows the same artifacts in the same order, the same ones retired and the same images, whichever removals fail. |
| `ArtifactExposure.ExposureSound` | src/pal/artifact/service.py:692-730 | An artifact is shown as usable if and only if it may be used; pixels come only from usable ones and never from more than the policy allows. |
| `ArtifactExposure.PromptShowsRight` | src/pal/artifact/service.py:753-805 | Without an explicit id that is not blank the prompt shows what is visible of the scope and the turn, each artifact once, newest first; otherwise the explicit ids that name a record of the scope, in the order given and as often as given, retired if and only if not visible. |
| `ArtifactExposure.ExposureIsRight` | src/pal/artifact/service.py:697-730 | So do the entries; pixels go with an entry if and only if it is a visible image, the model sees images, fewer than the maximum are attached before it, and its first normalized image, or else first page image, fits and has a file. |
| `ArtifactExposure.HotIffVisible` | src/pal/artifact/service.py:762-766 | Hot in the scope and not retired is the same as visible. |
| `ArtifactExposure.ListingUnique` | src/pal/artifact/repository.py:61-68 | There is only one listing, newest first and then by identifier. |
| `ArtifactExposure.ImagesAlike` | src/pal/artifact/service.py:810-815 | Reaping does not change which image of a visible artifact is shown. |
| `ArtifactManager.ArtifactManager.RetireArtifactLocked` | src/pal/artifact/service.py:172-246 | Retirement makes exactly the writes of the model, in order, tells whether it retired and whether it cleaned up, and leaves a record without paths that says since when and why. |
| `ArtifactManager.ArtifactManager.ReapExpired` | src/pal/artifact/service.py:107-149 | The loops of the reaping compute the set of candidates with their reasons and retire it, counting what was retired, cleaned and left pending; without write authority nothing changes. |
| `ArtifactManager.CandidatesCollected` | src/pal/artifact/service.py:119-135 | The three queries, each leaving earlier reasons alone, give the candidates and their reasons. |
| `ArtifactManager.ArtifactManager.CollectExpired` | src/pal/artifact/service.py:126-135 | Expired rows of no record are deleted, those of a record of their scope become candidates. |
| `ArtifactManager.ArtifactManager.ReapOrphanedManagedFiles` | src/pal/artifact/service.py:296-356 | Exactly the trees that belong to no unretired record are removed, or shrunk when the removal fails. |
| `ArtifactManager.ArtifactManager.RecoverLifecycle` | src/pal/artifact/service.py:151-170 | Migration, orphan scan and reaping come to the recovery of the model. |
| `ArtifactManager.ArtifactManager.MigrateLegacyPendingCleanupRecords` | src/pal/artifact/repository.py:78-87 | Retired records whose cleanup is not complete become retiring again, and are counted. |
| `ArtifactManager.ArtifactManager.RegisterIngested` | src/pal/artifact/service.py:400-466 | Registration writes the record, the tree, what is derived and the hot row, in this order; a usable source, every derived file and row are stored, and the first row has the full hard cap. |
| `ArtifactManager.RegisterIsRight` | src/pal/artifact/service.py:417-466 | The status, the first row, and the files and rows a registration leaves, in terms of the source, the policy and the processor's work. |
| `ArtifactManager.ArtifactManager.RequireVisibleRecord` | src/pal/artifact/service.py:846-862 | An artifact is granted if and only if it is visible in the scope; a writer retires what it refuses. |
| `ArtifactManager.ArtifactManager.RefreshHot` | src/pal/artifact/service.py:864-888 | A writer moves the expiry within the hard expiry; a reader only looks. |
| `ArtifactManager.ArtifactManager.Describe` | src/pal/artifact/service.py:483-486 | Check and renewal, each at its own reading of the clock; a writer grants by the check alone, a reader by both. |
| `ArtifactManager.ArtifactManager.ToDataUrl` | src/pal/artifact/service.py:732-751 | Pixels are given only for a visible artifact whose file exists, and a writer retires an artifact it refuses because its row is missing or has expired. |
| `ArtifactManager.ArtifactManager.ListRecords` | src/pal/artifact/repository.py:61-68 | The listing of the records in the scope. |
| `ArtifactManager.ArtifactManager.VisibleRecordsForPrompt` | src/pal/artifact/service.py:753-805 | The explicit ids that exist in the scope, in the order given and as often as given, or else what is visible of the current turn, newest first. |
| `ArtifactManager.ArtifactManager.SelectPromptExposure` | src/pal/artifact/service.py:692-730 | The prompt is that of the store after the reaping: the right artifacts, in the right order, each with the image it should have. |
| `ArtifactManager.StoppedRecovers` | src/pal/artifact/service.py:151-170 | Wherever a method of the manager is stopped, a recovery settles what it left. |
| `ArtifactManager.RefusedForever` | src/pal/artifact/service.py:851-861 | What a writer has refused as retired is visible to nobody ever again. |
| `ArtifactManager.RegisteredHardCap` | src/pal/artifact/service.py:872-878 | Whatever happens after its registration, an artifact is never visible once the hard cap has passed. |
| `Collation.FindFirst` | src/pal/artifact/repository.py:135-145 | The first representation in the order of the database. |
| `IsoTime.TextOrderIsTimeOrder` | src/pal/artifact/repository.py:179-190 | The expiry texts compare exactly as the instants do, with or without a fraction on either side, and equal texts mean equal instants. |
| `IsoTime.FractionOrder` | src/pal/artifact/repository.py:185-187 | A missing fraction compares as zero, because the sign of the zone sorts before the point. |
| `IsoTime.TextOrder` | src/pal/artifact/service.py:118-128 | The texts compare as the datetimes do field by field. |
| `IsoTime.EarlierIsSmaller` | src/pal/artifact/service.py:864-887 | The order of the fields is the order of the microseconds counted through the calendar. |
| `Segments.Utf16PrefixEnd` | providers/telegram/endpoint.py:210-221 | The end of the longest prefix that fits the limit in UTF-16 units, or 1 when not even the first character fits. |
| `Segments.UnitsCount` | providers/telegram/endpoint.py:215 | The length in code units is the number of characters and one more for each beyond the basic plane. |
| `Segments.StripMeans` | providers/telegram/endpoint.py:184 | Stripping takes white space off both sides and nothing else. |
| `Segments.SegmentText` | providers/telegram/endpoint.py:183-207 | The loop ends and computes the segments of the stripped text, each cut at the right place. |
| `Segments.CutOne` | providers/telegram/endpoint.py:196-206 | One round cuts at the last blank line in reach, only without one at the last line break, and only without either at the limit, and the rest gets shorter. |
| `Segments.SplitIsCut` | providers/telegram/endpoint.py:196-200 | The cut is the last blank line in reach, only without one the last line break, and only without either the limit. |
| `Segments.SegmentsCutRight` | providers/telegram/endpoint.py:191-206 | Every segment comes from such a cut of what was left, with as much in reach as the limit allows. |
| `Segments.ChunkNotEmpty` | providers/telegram/endpoint.py:201-204 | The fallback for an empty chunk is never needed. |
| `Segments.SegmentsCover` | providers/telegram/endpoint.py:183-207 | The segments are substrings of the stripped text, in order, with only white space between them: nothing is lost or reordered. |
| `Segments.SegmentsFit` | providers/telegram/endpoint.py:210-221 | Every segment is trimmed, not empty, and fits the limit, except a lone astral character under a limit of one. |
| `Segments.FittingTextWhole` | providers/telegram/endpoint.py:193-195 | A text that fits is sent whole. |
| `SendChain.StartedAfterSuccess` | providers/telegram/endpoint.py:1459-1472 | All tasks before a started one in its chain were started, in order, and finished with success. |
| `SendChain.RunKeeps` | providers/telegram/endpoint.py:1447-1480 | In every run a started task awaited a task that succeeded, the task it awaits is the one scheduled just before it in its conversation, and an entry of the chain table is the last task of its conversation. |
| `SendChain.TableHolds` | providers/telegram/endpoint.py:1473-1479 | After every run the table holds the latest send of a conversation exactly as long as it has not ended, in success, failure or cancellation alike; only a task cancelled before its first step stays although it is over. |
| `SendChain.NextStartsIff` | providers/telegram/endpoint.py:1457-1475 | The next send of a conversation starts at its first step if and only if the one before it has ended and was not cancelled before its first step: no failure wedges a conversation. |
| `SendChain.UnstartedShareFate` | providers/telegram/endpoint.py:1461-1471 | A send that ended without starting failed because the one before it failed, or was cancelled along with it, unless it was cancelled itself. |
| `SendChain.CarefulRun` | providers/telegram/endpoint.py:1473-1480 | As long as a task is cancelled before its first step only when the sends before it in its conversation are over, what has begun or ended has only finished sends before it. |
| `SendChain.SendsInTurn` | providers/telegram/endpoint.py:1459-1480 | In such runs a send starts only after every send scheduled earlier in its conversation is over, so no two overlap. |
| `SendChain.HarmfulOvertakes` | providers/telegram/endpoint.py:471-473 | After any other cancellation of a task before its first step, some continuation without another one lets a later send start while an earlier one is not over. |
| `SendChain.TurnsKeptIff` | providers/telegram/endpoint.py:1447-1480 | The sends of a conversation keep their turns, at every moment of a run and in all its continuations, if and only if no task is cancelled before its first step while an earlier send of its conversation is not over. |
| `SendChain.CancelledUnstartedOverlaps` | providers/telegram/endpoint.py:1473-1479 | The smallest such run: two sends of one conversation run at the same time. |
| `Delivery.ReplyQueue.QueueReply` | src/pal/channel/channel_endpoint_queue_base.py:539-563 | A reply with something left to send enters the outbox under the id given; every reply stays in exactly one place if and only if that id was not used before. |
| `Delivery.ReplyQueue.FlushOutbox` | providers/telegram/endpoint.py:524-560 | What was in flight goes where its task says, with one more attempt after a transient failure and the same after a cancellation; what was queued is in flight, or back in the outbox, with one more attempt if the endpoint is unavailable; every accepted reply stays in exactly one place. |
| `Delivery.ReplyQueue.Collect` | providers/telegram/endpoint.py:637-670 | Every finished task is settled: sent and reported, failed for good and reported, back in the outbox with one more attempt, or back as it was after a cancellation. |
| `Delivery.ReplyQueue.CollectOne` | providers/telegram/endpoint.py:639-669 | The effect of one finished task on outbox, flight, sent, failed and events, field by field. |
| `Delivery.ReplyQueue.FailureEventOnce` | src/pal/channel/channel_endpoint_queue_base.py:746-784 | A failure is reported with the next attempt, but a transient one not again for the same reason within a minute. |
| `Delivery.ReplyQueue.Recover` | providers/telegram/endpoint.py:464-508 | After recovery nothing is in flight, and everything in flight that was not sent is back in the outbox with one more attempt. |
| `Delivery.CollectKeeps` | providers/telegram/endpoint.py:637-670 | Settling a task keeps every accepted reply in exactly one of outbox, flight, sent and failed, and at most one delivered event an id. |
| `Delivery.RequeueKeeps` | providers/telegram/endpoint.py:476-488 | So does putting a reply back. |
| `Delivery.SentKeeps` | providers/telegram/endpoint.py:667-669 | So does a success. |
| `Delivery.FailedKeeps` | providers/telegram/endpoint.py:649-666 | So does a permanent failure. |
| `Delivery.LaunchKeeps` | providers/telegram/endpoint.py:548-559 | So does sending an item of the outbox. |
| `FacePanel.AlwaysConsistent` | plugins/st7789_face/sidecar.py:191-362 | In every reachable state a pending expression waits for a shock, a shock excludes holds and system poses, a base pose shown is the base pose, and a system pose is on display. |
| `FacePanel.StepConsistent` | plugins/st7789_face/sidecar.py:191-362 | Every command and tick keeps this. |
| `FacePanel.HandRequestHolds` | plugins/st7789_face/sidecar.py:234-245 | A hand request outside a system pose is shown at once and holds the panel for its duration. |
| `FacePanel.HoldPlaysOut` | plugins/st7789_face/sidecar.py:247-253 | Until the hold is over no ambient command, base request, clear or tick changes the display, while the base pose follows the commands. |
| `FacePanel.HoldSettles` | plugins/st7789_face/sidecar.py:471-473 | The first round after the hold draws the last base pose asked for, if and only if that is not standby with an idle action due by then; otherwise the idle action begins in the same round. |
| `FacePanel.TickSettles` | plugins/st7789_face/sidecar.py:296-346 | What one round does with an expression that is over. |
| `FacePanel.SystemPoseStays` | plugins/st7789_face/sidecar.py:226-232 | A system pose that is not a base pose stays on display until it is cleared or replaced. |
| `FacePanel.ClearShowsBase` | plugins/st7789_face/sidecar.py:282-287 | Clearing it shows the base pose kept up to date underneath. |
| `FacePanel.TwoTicksSettle` | plugins/st7789_face/sidecar.py:471-473 | Without further commands two rounds, each after the expression before is over, bring the panel to its base pose, if and only if no idle action is due at the second. |
| `FacePanel.WakesWithShock` | plugins/st7789_face/sidecar.py:255-318 | A sleeping panel shocks awake, the round after the shock draws what arrived, and the round after an expression draws standby, each time unless an idle action is due in standby. |
| `FacePanel.CommandShows` | plugins/st7789_face/sidecar.py:226-272 | What a command shows: nothing new under a system pose, a hold or a shock, a shock for a sleeping panel, else the pose asked for. |
| `FacePanel.CommandBase` | plugins/st7789_face/sidecar.py:229-259 | What a command leaves underneath. |
| `FacePanel.CommandWakes` | plugins/st7789_face/sidecar.py:242-272 | Whether a shock goes on after a command, and what waits behind it. |
| `FacePanel.CommandHolds` | plugins/st7789_face/sidecar.py:208-210 | Only an animation by hand leaves a hold behind. |
| `FacePanel.CommandClocks` | plugins/st7789_face/sidecar.py:197-207 | A command that shows something new, or any base pose under a hold or a system pose, starts the idle clock again; a base pose that is on display does not. |
| `FacePanel.CommandLeaves` | plugins/st7789_face/sidecar.py:222-226 | A command puts off the next idle action and touches neither the system pose nor the memory of idle actions. |
| `FacePanel.SystemEffects` | plugins/st7789_face/sidecar.py:281-294 | A system pose takes the display at once and ends hold and shock; clearing it shows the base pose; the same one again changes nothing. |
| `FacePanel.SleeperWakesIff` | plugins/st7789_face/sidecar.py:359-360 | A sleeping panel wakes by itself if and only if it has not been active for the wake time, and the idle clock starts again. |
| `FacePanel.SleepsUntilWake` | plugins/st7789_face/sidecar.py:354-360 | Left alone, it sleeps on until then, and the first round after that wakes it. |
| `FacePanel.StandbyTick` | plugins/st7789_face/sidecar.py:336-362 | A standby panel at a round: asleep after too long, else the idle action that is due, which leaves the idle clock alone, else unchanged. |
| `FacePanel.FidgetEnds` | plugins/st7789_face/sidecar.py:306-318 | The end of an idle action counts as activity. |
| `FacePanel.DurationRange` | plugins/st7789_face/face_art.py:117-128 | The shock is the shortest expression, the drink the longest. |
| `FacePanel.SilenceSleepsIff` | plugins/st7789_face/sidecar.py:328-362 | A silent panel always falls asleep once the idle time has passed, whatever delays the settings draw, if and only if the shortest delay is not below the idle time. |
| `FacePanel.NeverSleepsIff` | plugins/st7789_face/sidecar.py:320-362 | With rounds at most so far apart, a silent panel never falls asleep, if and only if the longest delay the settings draw and one such gap fit into the idle time. |
| `FacePanel.FidgetsPreventSleep` | plugins/st7789_face/sidecar.py:328-346 | Under such settings a panel that is fidgeting or soon to fidget stays awake, however long the silence. |
| `FacePanel.RestingSleeps` | plugins/st7789_face/sidecar.py:348-358 | While no idle action can come before the idle time has passed, the first round after it shows the panel asleep. |
| `FacePanel.TickBegins` | plugins/st7789_face/sidecar.py:336-346 | A round that begins an idle action shows it and remembers it; nothing else touches the memory. |
| `FacePanel.NeverTwiceInARow` | plugins/st7789_face/sidecar.py:340-342 | The same idle action never plays twice in a row, whatever commands come in between. |
| `FacePanel.FaceSidecar.DoSetState` | plugins/st7789_face/sidecar.py:191-210 | The fields change as the panel function says. |
| `FacePanel.FaceSidecar.DoReceiveState` | plugins/st7789_face/sidecar.py:216-272 | So do those of a command. |
| `FacePanel.FaceSidecar.DoReceiveSystemState` | plugins/st7789_face/sidecar.py:274-294 | So do those of a system command. |
| `FacePanel.FaceSidecar.ExpireExpression` | plugins/st7789_face/sidecar.py:296-318 | So do those of an expiry. |
| `FacePanel.FaceSidecar.DoTickIdle` | plugins/st7789_face/sidecar.py:348-362 | So do those of an idle tick. |
| `FacePanel.FaceSidecar.Handle` | plugins/st7789_face/sidecar.py:216-362 | Every event keeps the panel consistent. |
| `PeerExchange.WireRoundTrip` | providers/websocket_bridge/protocol.py:48-83 | A context survives the wire if and only if it is genuine. |
| `PeerExchange.ParsedIsGenuine` | providers/websocket_bridge/protocol.py:56-83 | Parsing never invents or resets a hop count, and what it accepts survives the wire. |
| `PeerExchange.SidecarRuntime.ProcessFrame` | providers/websocket_bridge/sidecar.py:635-704 | The Pal is asked if and only if the frame is a user message whose text is neither sentinel nor blank, no slash command and not forged, with a context of version 1, a UUID and a count from 1 to 8; what is sent on is the reply one hop further, unless the send raises; each refusal raises exactly its counter; nothing of the exchange is kept. |
| `PeerExchange.ClassifyMeans` | providers/websocket_bridge/sidecar.py:168-185 | A text is a slash command if its first character that is not white space is a slash, else forged, else blank, else deliverable. |
| `PeerExchange.AcceptedPasses` | providers/websocket_bridge/sidecar.py:653-670 | A frame is accepted if and only if it is a user message with words that may pass and a context of version 1, a UUID and a count from 1 to 8. |
| `PeerExchange.ForwardMeans` | providers/websocket_bridge/sidecar.py:682-696 | What is sent on is the answer under the same exchange, one hop further, while that is within eight. |
| `PeerExchange.MessageVerdicts` | providers/websocket_bridge/sidecar.py:653-691 | Which messages are rejected, which end the exchange by the sentinel, and which by the limit. |
| `PeerExchange.SidecarRuntime.Terminate` | providers/websocket_bridge/sidecar.py:493-498 | Ending an exchange forgets it and counts sentinels and limits. |
| `PeerExchange.StepKeeps` | providers/websocket_bridge/sidecar.py:420-445 | Every step of the network keeps one frame under way an exchange and the counts in order. |
| `PeerExchange.BoundedExchanges` | providers/websocket_bridge/sidecar.py:631-704 | Under every interleaving of roots, losses and late answers, an exchange has at most one frame under way and its frames carry 1, 2, ... without gap or repetition, never above eight. |
| `PeerExchange.StepLosesEnergy` | providers/websocket_bridge/sidecar.py:688-703 | Every step other than a root lowers the sum of the hops that are left. |
| `PeerExchange.RunsEnd` | providers/websocket_bridge/sidecar.py:631-704 | Without new roots every run ends: at most sixteen steps for every exchange started. |
| `Closure.Reachable` | scripts/audit_dead_code.py:233-241 | The worklist computes the nodes that walks from the roots reach, the least closed set that contains the roots. |
| `Closure.Visit` | scripts/audit_dead_code.py:237-240 | The targets of a node that are not seen yet are queued once. |
| `Closure.ClosureIsLeast` | scripts/audit_dead_code.py:233-241 | The result is contained in every closed set that contains the roots. |
| `References.ReferenceGraph.AddEdge` | scripts/audit_dead_code.py:315-327 | Edges, exact edges, reverse edges, module dependencies and counters change as stated; the first eight edges to a node are kept as evidence, each with its kind. |
| `References.ReferenceGraph.AddReference` | scripts/audit_dead_code.py:395-413 | Reading a reference keeps the edges faithful to the references read, with one dispatch node for each called name that has matches. |
| `References.ReferenceGraph.Build` | scripts/audit_dead_code.py:395-413 | So the graph says exactly what the references say. |
| `References.SharingPreservesReach` | scripts/audit_dead_code.py:396-409 | Routing unknown receivers through one shared node reaches the same definitions, from any roots, as every direct edge from caller to method. |
| `References.SharedWalk` | scripts/audit_dead_code.py:401-409 | A walk through shared nodes has a direct counterpart. |
| `References.DirectWalk` | scripts/audit_dead_code.py:401-409 | A direct walk has a counterpart through shared nodes. |
| `References.ReferenceGraph.Candidates` | scripts/audit_dead_code.py:484-488 | The candidates are the definitions that no runtime root reaches. |
| `Components.Group` | scripts/audit_dead_code.py:503-518 | The loop ends and partitions the selected nodes into exactly the connected components: disjoint, covering, each connected and maximal. |
| `Components.Links` | scripts/audit_dead_code.py:503-507 | The links are the exact edges among the selected nodes, both ways. |
| `Components.ComponentOf` | scripts/audit_dead_code.py:511-512 | What is reachable from a node over symmetric links is its component. |
| `Components.TakeGroup` | scripts/audit_dead_code.py:513-514 | Taking out a component leaves whole components. |

## Left out

- Artifact processing itself, PDF pages, text reading, searching and ranking: they read an artifact once it is granted.
- SQLite, symbolic links, path resolution and directories above a tree: rows are maps, a tree is the set of its files.
- `str.isalnum` beyond ASCII: the model keeps every character from U+0080 on in the directory name of a scope.
- An artifact identifier that is not a single path component: identifiers are fresh UUID texts.
- ArtifactManager.ArtifactManager.SelectPromptExposure: does not state the text of the manifests; an entry is the identifier, live or retired, and the attached image.
- Several readings of the clock within one call, other than the check and the renewal of an access: such a call has one instant.
- ArtifactManager.ArtifactManager.Describe: no other thread runs between check and renewal; what one may do there is the subject of `RacingRefreshLeavesRow`.
- Expiry texts that do not parse: the parser reads them as the beginning of the epoch, the database compares them as they are.
- Attachments and stream updates of the Telegram endpoint, and the order of messages across retries: the source promises none.
- The Telegram API, the `websockets` library, the drawing of the face, sockets and shutdown states.
- JSON decoding, UUID syntax and the recognition of forged control frames: a parameter (`Oracle`) of the peer exchange.
- Integer texts in a peer context: a number is an integer or it is not one.
- Reconnection backoff and the connection state machine.
- The clearing of the whole chain table when the Telegram endpoint stops.
- Alias resolution of pose names and parsing of the face's command lines: easy members.
- `ReferenceGraph.targets`: re-exports can lengthen the queried name on every call, so resolution is a parameter of `References`.
- Line numbers in the evidence of an edge, and the layout of the report.
- Components.Group: takes the nodes in any order, where the source takes the smallest first; the groups are the same.
- Benchmarks, command line wiring, installation and evaluation scripts.
