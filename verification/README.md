# A verified model of the controller's protocols and the build's algorithms

The project models the parts of an ingress controller and its tooling in which
a property holds only because several operations work together, and proves
those properties for every input, run or interleaving.
`dafny verify dfyconfig.toml` checks all of it.

* **Deployed auxiliary files.** `PublishedAuxModel`, `PublishedAuxSafety` and
  `PublishedAuxFiles` are the store of published auxiliary files: it advances
  only to a completely resolved commit and carries three latches (no silent
  change of a set-ID-less set on a follower, no way back from set IDs, none
  from content identities, each with exactly the events that close and open
  it). `CurrentFilesModel` and `CurrentFiles` are the
  leader-term authority on top of it, with a provisional and a confirmed
  baseline and an exact-root form next to the plain one; `FileRoots` holds the
  shared heap objects. The classes do what the source's methods do, each proved
  to be one step of a value-level model; the theorems are about all runs of
  that model.
* **Iteration hand-over.** `LeaderTerms` has the callbacks of one iteration as
  interleaved atomic steps, `ReloadHandOff` the race between startup and
  reload observer, `HandOver` the sequence of iterations with the Lease, and
  `IterationSequence` the two classes that the code mutates; `IterationRuns`
  ties their steps to runs of the two protocols.
* **Test sharding.** `ListScheduling` proves Graham's bound for longest
  processing time first, `TestSharder` that the sharder is an instance of it,
  that no shard is empty and that the shards hold every test once.
  `Sorting` is shared.
* **Changelog promotion.** `ChangelogItems` and `ChangelogSections` parse, merge
  and print nested items and sections; `ChangelogGrammar` says what is parsed
  from the positions of the lines; `ChangelogRoundTrip` and
  `ChangelogPrinting` say when the printed text reads back; `ChangelogFolding`
  folds pre-releases, `ChangelogPromotion` promotes, and `ChangelogExamples`
  holds the inputs at which folding goes wrong.
* **Evidence arithmetic.** `ExactDecimals` (decimal addition at a bounded
  precision), `LifecycleOutcomes` and `ResourceWindow`.
* **Graph and scan.** `GatewayRequires` (depth-first closure is reachability)
  and `Provenance` (the single-pass byte scan has a positional specification).

Where the code and its words disagree, the model follows the code:

* A store that refused a content-identity downgrade is opened again by a child
  refresh under which the downgraded commit resolves. The set-ID latch has no
  such gap. (`ContentLatchExact`, `ContentLatchCanBreak`)
* The leading flag can stay up after a term is gone, when a stop clears it
  while a start holds the mutex. Only the cancel that latches first is final.
  (`FlagAfterStopExact`, `FlagCanOutliveItsTerm`)
* Promotion is not idempotent for a version that a heading cannot hold, for one
  that ends in its only dash, or when a pre-release heading occurs again outside
  the folded part. (`PromotionIsIdempotent`, `BracketInside`, `DashAtTheEnd`,
  `RepeatedPreReleaseBlocks`)
* Folding keeps only the newest text before a release's first section, entries
  included. (`LeadTextKept`, `LeadEntriesKept`, `EntryIsLost`)
* Merged entries from releases that indent differently, and entries that are
  paragraphs, print so that they read back with another nesting.
  (`FoldReadsBack`, `EntryIsMisnested`, `ParagraphsRunTogether`)
* A reload that an iteration records after it has handed one on goes nowhere;
  the successor watches for changes of its own. (`OutcomeIsNewest`,
  `LateRequestIsDropped`)
* The comment that no term reaches the generation of published sources holds for
  fewer than 2^64 - 1 terms. (`PublishedGenerationExact`)
* A source sample may be twenty seconds old
  (`scripts/analyze-gateway-api-resources.py:659`), though the message there
  says ten.
* A reload request without a snapshot is not recorded, but still cancels a
  startup (`pkg/controller/reload_authority.go:50-88`).

## Model

| member | source | states |
|---|---|---|
| `PublishedAuxModel.ResolveExact` | pkg/controller/publishedauxfiles.go:279-375 | a commit resolves if and only if no CA file aliases a certificate (a missing namespace being the store's own), every reference is present in its own namespace and carries the set's ID or, with content identities, has path, checksum and role and a name that carries the digest of exactly these, and without a set ID all share one; the result is exactly the contributed files under the last elements of their paths, the last reference of a name winning |
| `PublishedAuxModel.ContentIdentityExact` | pkg/controller/publishedauxfiles.go:339-357 | a file passes the content check if and only if it has a path, a Secret also a checksum and the role of its field, and the reference's name holds the digest of kind, path, checksum and role at its end or before a dash; the checksum of a kind with content is that of its bytes |
| `PublishedAuxModel.ReferenceBinds` | pkg/k8s/configpublisher/content_identity.go:33-37 | two files that one reference with one content identity accepts have the same path, role and bytes, unless the hash collides on them |
| `PublishedAuxModel.ContentIdentityDecides` | pkg/k8s/configpublisher/content_identity.go:28-37 | a commit with content identities resolves to the same files against every two stores it resolves against at all, unless the hash collides on what they hold |
| `PublishedAuxModel.BaseExact` | pkg/controller/publishedauxfiles.go:296-298 | files are published under the last element of their path, trailing slashes aside |
| `PublishedAuxModel.ResolveSlotsFrame` | pkg/controller/publishedauxfiles.go:279-304 | a resolution depends only on the referenced entries of the store |
| `PublishedAuxModel.FailureSticks` | pkg/controller/publishedauxfiles.go:279-304 | the first reference that fails decides the whole resolution |
| `PublishedAuxModel.SlotsMembers` | pkg/controller/publishedauxfiles.go:279-304 | the references resolved are exactly those of the commit, each under the kind its field belongs to |
| `PublishedAuxModel.ResolveAgrees` | pkg/controller/publishedauxfiles.go:225-240 | commits that compare equal resolve alike |
| `PublishedAuxSafety.AdvanceOutcome` | pkg/controller/publishedauxfiles.go:242-271 | advancing either records an error, or reads as empty without a commit, or accepts the complete resolution with exactly these latches and availability; nothing else moves |
| `PublishedAuxSafety.ReachedInv` | pkg/controller/publishedauxfiles.go:86-193 | in every reachable state a readable store holds what its newest commit resolves to, if that resolves, and a store that accepted a set ID is unreadable while the newest commit lacks one |
| `PublishedAuxSafety.FollowerKeepsLegacySet` | pkg/controller/publishedauxfiles.go:131-173 | a follower with an accepted set-ID-less set reads that same set or nothing through every run of child refreshes, commits without set ID and read errors; once unreadable it stays so |
| `PublishedAuxSafety.LeaderTermLiftsLegacyLatch` | pkg/controller/publishedauxfiles.go:179-187 | a new leader term reads whatever is visible, unless a set ID was ever accepted |
| `PublishedAuxSafety.RefusalExact` | pkg/controller/publishedauxfiles.go:131-193 | a readable store becomes unreadable by exactly these events, each with its error: on a follower with a set-ID-less set a change of a referenced file, another commit without set ID or a read error; after a set ID was accepted a commit without; after a content identity a commit without one |
| `PublishedAuxSafety.ReopensExact` | pkg/controller/publishedauxfiles.go:131-193 | an unreadable store becomes readable by exactly these: a refresh or commit under which a commit with a set ID, not below an accepted content identity if it is new, resolves; or a leader term, if no set ID was ever accepted |
| `PublishedAuxSafety.LeaderReads` | pkg/controller/publishedauxfiles.go:131-187 | from the start of its term, through any events and while no set ID was accepted, a leader can read: the newest commit if that resolves, else what it read before the event |
| `PublishedAuxSafety.ReadyMeansResolved` | pkg/controller/publishedauxfiles.go:377-390 | in every reachable state a store that reports itself ready reads exactly what its newest commit resolves to; after a refresh or commit it is ready exactly if it can be read and that commit resolves, and never right after a read error |
| `PublishedAuxSafety.CurrentIsOneResolution` | pkg/controller/publishedauxfiles.go:242-375 | in every reachable state the current set is empty or the complete resolution of one commit against one earlier store state; after a set ID was accepted that commit has one |
| `PublishedAuxSafety.FailedResolutionKeepsCurrent` | pkg/controller/publishedauxfiles.go:260-264 | a resolution that fails leaves the current set unchanged, whatever the event |
| `PublishedAuxSafety.SetIDLatch` | pkg/controller/publishedauxfiles.go:144-187 | once a set with a set ID was accepted, in every later state the latches stay, reading fails while the newest commit lacks a set ID, and the current set resolves a commit with one |
| `PublishedAuxSafety.ContentLatchExact` | pkg/controller/publishedauxfiles.go:131-164 | a store that refuses a content-identity downgrade is reopened by exactly one kind of event: a child refresh under which the downgraded commit, which has a plain set ID, resolves |
| `PublishedAuxSafety.ContentLatchCanBreak` | pkg/controller/publishedauxfiles.go:150-153 | a concrete run that reads a plain set after a content-verified one was accepted |
| `PublishedAuxFiles.CommitsEqual` | pkg/controller/publishedauxfiles.go:225-240 | equal exactly if the set IDs and the references of every field agree |
| `PublishedAuxFiles.AliasedSecretReference` | pkg/controller/publishedauxfiles.go:306-326 | reports a secret referenced both as certificate and as CA file exactly if there is one |
| `PublishedAuxFiles.Published.Read` | pkg/controller/publishedauxfiles.go:113-123 | a private copy of the current set, or the reason it is unavailable |
| `PublishedAuxFiles.Published.ReadinessError` | pkg/controller/publishedauxfiles.go:377-390 | the last error, else the refusal, else that nothing was taken yet |
| `PublishedAuxFiles.Published.LegacyReferencesChanged` | pkg/controller/publishedauxfiles.go:203-223 | true exactly if a committed reference of this kind changed, appeared or disappeared |
| `PublishedAuxFiles.Published.ResolveCommit` | pkg/controller/publishedauxfiles.go:279-304 | the loops over kinds, fields and references compute the resolution of the model, or its first error |
| `PublishedAuxFiles.Published.AdvanceLocked` | pkg/controller/publishedauxfiles.go:242-271 | one advance of the model; the root changes exactly if the contents do |
| `PublishedAuxFiles.Published.SetForKind` | pkg/controller/publishedauxfiles.go:131-142 | the step of the model for a child refresh |
| `PublishedAuxFiles.Published.SetCommit` | pkg/controller/publishedauxfiles.go:144-164 | the step of the model for a parent commit |
| `PublishedAuxFiles.Published.SetError` | pkg/controller/publishedauxfiles.go:166-173 | the step of the model for a read error |
| `PublishedAuxFiles.Published.BeginLeaderTerm` | pkg/controller/publishedauxfiles.go:179-187 | the step of the model for the start of a leader term |
| `PublishedAuxFiles.Published.EndLeaderTerm` | pkg/controller/publishedauxfiles.go:189-193 | the step of the model for the end of a leader term |
| `FileRoots.RetainRoot` | pkg/controller/currentfiles.go:77-85 | keeps the previous root exactly while it is sealed and its contents are unchanged; otherwise a root that nobody else holds |
| `CurrentFilesModel.RunRefinesTwoCells` | pkg/controller/currentfiles.go:271-465 | every run of Accept, Confirm and Rollback, in plan and output variants freely mixed, refines a term with one working and one confirmed render |
| `CurrentFilesModel.StrayVerdictChangesNothing` | pkg/controller/currentfiles.go:357-465 | after any run, a verdict on a superseded or settled render or from another term changes nothing at all |
| `CurrentFilesModel.RollbackRestoresLastConfirmed` | pkg/controller/currentfiles.go:407-465 | an effective rollback restores exactly the baseline confirmed last in this term |
| `CurrentFilesModel.RollbackWithoutConfirmationClears` | pkg/controller/currentfiles.go:407-465 | with nothing confirmed in this term it leaves none, so the published set is read again |
| `CurrentFilesModel.RunReadsCells` | pkg/controller/currentfiles.go:230-256 | over every run of calls and store events and for every generation: a read fails whenever the store is unavailable, else gives the files of the open term's outstanding or last confirmed render to a reader of that term, and the published set to any other |
| `CurrentFilesModel.RenderReadsLastAccepted` | pkg/controller/currentfiles.go:230-256 | a render reads the files accepted last in its term, confirmed or not, until another is accepted, an effective rollback or the end of the term |
| `CurrentFilesModel.RolledBackReadsConfirmed` | pkg/controller/currentfiles.go:407-465 | after an effective rollback it reads the files confirmed last |
| `CurrentFilesModel.RolledBackReadsPublished` | pkg/controller/currentfiles.go:407-465 | or the published set, if none was confirmed in this term |
| `CurrentFilesModel.StoreIsReached` | pkg/controller/currentfiles.go:183-228 | the store beside the authority is always one that a run of its own events leads to, so what holds of those holds here |
| `CurrentFilesModel.ActiveMeansLeader` | pkg/controller/currentfiles.go:183-228 | over every run of calls and store events the store takes this replica for the leader exactly while a term is active |
| `CurrentFiles.Authority.constructor` | pkg/controller/currentfiles.go:179-181 | starts without term or baseline, on an empty root of its own |
| `CurrentFiles.Authority.BeginTerm` | pkg/controller/currentfiles.go:183-204 | a new generation (64-bit, wrapping) with both baselines cleared; the store begins its term |
| `CurrentFiles.Authority.EndTerm` | pkg/controller/currentfiles.go:206-228 | only the current term ends; both baselines are cleared and the store ends its term |
| `CurrentFiles.Authority.Accept` | pkg/controller/currentfiles.go:271-289 | the call of the model; outside the term nothing changes |
| `CurrentFiles.Authority.AcceptSnapshot` | pkg/controller/currentfiles.go:291-319 | the call of the model; fails exactly for an unusable snapshot or outside the term |
| `CurrentFiles.Authority.AcceptOutput` | pkg/controller/currentfiles.go:321-355 | the call of the model; fails exactly for an unusable output or outside the term |
| `CurrentFiles.Authority.Confirm` | pkg/controller/currentfiles.go:357-371 | the call of the model: only the pending plan of a plan-accepted render is confirmed |
| `CurrentFiles.Authority.ConfirmOutput` | pkg/controller/currentfiles.go:373-405 | the call of the model, and exactly when it reports a problem |
| `CurrentFiles.Authority.Rollback` | pkg/controller/currentfiles.go:407-430 | the call of the model: back to the confirmed baseline, or to none |
| `CurrentFiles.Authority.RollbackOutput` | pkg/controller/currentfiles.go:432-465 | the call of the model, and exactly when it reports a problem |
| `CurrentFiles.Authority.CaptureAccepted` | pkg/controller/currentfiles.go:231-235 | the first half of a read, under the authority's lock: the files accepted last in this generation, if its term is open and has any |
| `CurrentFiles.Authority.FinishSnapshot` | pkg/controller/currentfiles.go:236-255 | the second half, under the store's lock, at any later time: a fresh map with what was captured, or with the published set, or the store's error |
| `CurrentFiles.Authority.TakeSnapshot` | pkg/controller/currentfiles.go:230-256 | both halves with nothing in between: exactly the files the model reads for this generation, or the store's error |
| `CurrentFiles.Authority.FinishExact` | pkg/controller/currentfiles.go:96-125 | the second half of an exact read, at any later time: a sealed source on the captured or the published root; fails whenever the plain form does, and for a non-zero generation only then |
| `CurrentFiles.Authority.ExactSource` | pkg/controller/currentfiles.go:87-125 | both halves with nothing in between: a sealed source on the root that holds exactly the files of the model |
| `CurrentFiles.Authority.PublishedExactSource` | pkg/controller/currentfiles.go:136-138 | serves what the model reads for the generation that stands for none: the published root exactly while the store is available, or the accepted files of a term that has reached that generation |
| `CurrentFilesModel.PublishedGenerationExact` | pkg/controller/currentfiles.go:127-138 | after any run of calls the published generation reads an accepted baseline if and only if the number of terms begun, modulo 2^64, is that generation and its term is active with one; with fewer terms it reads the published set |
| `CurrentFiles.Source.SameRoot` | pkg/controller/currentfiles.go:150-170 | true if and only if authority, generation and contents agree |
| `CurrentFiles.Source.Materialize` | pkg/controller/currentfiles.go:172-177 | a fresh map equal to the root, exactly for an authentic source |
| `CurrentFiles.FinishBothWays` | pkg/controller/currentfiles.go:87-177 | whatever happened to the store since the baseline was captured, for a non-zero generation the plain and the exact form both fail with the same error or give equal maps |
| `CurrentFiles.ReadBothWays` | pkg/controller/currentfiles.go:87-177 | for every valid state and non-zero generation the plain and the exact form both fail with the same error or give equal maps |
| `CurrentFiles.ReadAfter` | pkg/controller/currentfiles.go:87-125 | after any run of calls both forms give exactly what the specification's two cells and the store say, or the store's error |
| `CurrentFiles.ScribbleOnSnapshot` | pkg/controller/currentfiles.go:230-256 | whatever a caller writes into a snapshot, authority and store are unchanged |
| `CurrentFiles.ScribbleAfterAccept` | pkg/controller/currentfiles.go:271-289 | whatever a caller writes into a map after handing it in, the authority keeps what it accepted |
| `CurrentFiles.ScribbleOnMaterialized` | pkg/controller/currentfiles.go:172-177 | whatever a caller writes into a materialised map, the root stays and materialises as before |
| `LeaderTerms.AtMostOneTerm` | pkg/controller/leader.go:141-462 | under every interleaving of the start callback, the election loop, stand-downs, retirement and teardown, and without election, at most one set of leader-only components runs |
| `LeaderTerms.NoTermAfterCancel` | pkg/controller/leader.go:211-219 | once the stop latch is set no component run starts, whatever steps follow; after the cancel that set it ran to its end the leading flag is down for good and no components are left |
| `LeaderTerms.RetirementEndsTheTerm` | pkg/controller/leader.go:280-298 | after a completed retirement, with or without election, nothing runs any more, in any continuation |
| `LeaderTerms.TeardownCanFinish` | pkg/controller/leader.go:209-298 | from every reachable state steps that are possible lead to a finished teardown: no interleaving of mutex, loop and starter is stuck |
| `LeaderTerms.FlagAfterStopExact` | pkg/controller/leader.go:171-178 | from the moment a stop clears the leading flag until the next attempt, whatever else interleaves, the flag is up if and only if a start that held the mutex has succeeded and published and nothing cleared the flag after that |
| `LeaderTerms.FlagCanOutliveItsTerm` | pkg/controller/leader.go:206-246 | a concrete interleaving that leaves the flag up with no components |
| `ReloadHandOff.OutcomeIsNewest` | pkg/controller/reload_authority.go:50-88 | over every interleaving: a serving iteration hands on the newest reload recorded when it decides, which is the newest of all it ever records if and only if none is recorded afterwards; an interrupted startup restarts from the only reload recorded; any other failed startup names none |
| `ReloadHandOff.LateRequestIsDropped` | pkg/controller/reload_authority.go:50-58 | a concrete run in which a reload recorded after the hand-on goes nowhere |
| `ReloadHandOff.InterruptionExact` | pkg/controller/iteration.go:321-332 | over every run: a failed startup restarts from a reload if and only if the first step that ended its context was a cancellation, no stage failed on its own account, a usable request was recorded before the failing startup read the latest one, and the teardown was clean |
| `ReloadHandOff.ServedReloadIsTaken` | pkg/controller/iteration.go:112-122 | a reload recorded while serving wakes the waiting iteration, which hands on the newest |
| `ReloadHandOff.LiveContextKeepsServing` | pkg/controller/iteration.go:112-122 | while its context is alive an iteration keeps its observer, fails only on its own account and does not end without a reload |
| `ReloadHandOff.LateCancelStillHandsOn` | pkg/controller/iteration.go:486-501 | a cancellation that came too late to stop the startup still hands its reload on |
| `HandOver.EachIterationTornDownOnce` | pkg/controller/controller.go:707-747 | over every run each started iteration is torn down exactly once, or is live and not torn down |
| `HandOver.CurrentIsNeverRetired` | pkg/controller/controller.go:707-735 | between steps the current iteration has kept its leadership |
| `HandOver.AtMostOneOpenTerm` | pkg/controller/iteration.go:294-297 | at most one iteration's term is open, with and without leader election |
| `HandOver.LeaseHasHeir` | pkg/controller/iteration.go:337-343 | a Lease that names this replica has a live iteration to resume or vacate it |
| `HandOver.LeaseMovesExactly` | pkg/controller/controller.go:697-747 | in every reachable state each step moves the Lease exactly as the phase says: retiring keeps it for the successor, a hand-over that succeeds leaves it alone, a failed one gives it up once the predecessor was retired |
| `HandOver.ContendersCanAcquire` | pkg/controller/iteration.go:294-297 | exactly the successor that entered election, and the current iteration before its hand-over, can acquire a Lease that no other replica holds |
| `HandOver.KeptLeaseIsResumedOrReleased` | pkg/controller/controller.go:715-724 | a kept Lease is resumed by a live, unretired successor or vacated; nothing else happens to it |
| `HandOver.NoTermAfterLatch` | pkg/controller/leader.go:280-298 | in every continuation no term is open on an iteration that was retired or torn down |
| `IterationSequence.LiveIteration.RetireLeadership` | pkg/controller/iteration.go:136-142 | the term ends once however often it is retired |
| `IterationSequence.LiveIteration.ReleaseKeptLease` | pkg/controller/iteration.go:146-150 | only a retired iteration with an election vacates its Lease |
| `IterationSequence.StartIteration` | pkg/controller/iteration.go:178-343 | whichever stage fails, a failed start tears down what it made once, and it retires the predecessor exactly if it came past the hand-over |
| `IterationSequence.CompleteFailedStartup` | pkg/controller/iteration.go:321-332 | tears the failed start down once; reports the interrupting reload only after a clean teardown, else every problem |
| `IterationSequence.Sequence.Step` | pkg/controller/controller.go:707-735 | the predecessor is kept if and only if the start failed before the hand-over, else torn down once, its Lease vacated first if no successor came up; the new iteration is current or torn down once; each reload handed on is given to exactly one start; the problems and the reload reported |
| `IterationSequence.ReportedExact` | pkg/controller/controller.go:707-735 | a step reports each kind of problem exactly if it occurred |
| `IterationSequence.HandedOnExact` | pkg/controller/controller.go:707-735 | a reload is left for the next start exactly if it cut this one short and that was torn down cleanly, or ended the service of an iteration whose predecessor was |
| `IterationSequence.Sequence.Close` | pkg/controller/controller.go:740-747 | tears the current iteration down once and forgets it |
| `IterationRuns.StepAlong` | pkg/controller/controller.go:707-735 | a step leaves its iterations exactly where any run of the hand-over protocol with the same own steps does, however elections interleave: the same current iteration, not retired, and the same teardowns of the new one and of the predecessor |
| `IterationRuns.StepLeaves` | pkg/controller/controller.go:707-735 | what every such run leaves of the protocol: the marks of the new iteration and of the predecessor, and which is current |
| `IterationRuns.StepHasRun` | pkg/controller/controller.go:707-735 | the protocol has such a run for every step |
| `IterationRuns.RunSteps` | pkg/controller/controller.go:668-735 | over any number of steps, with distinct requests, each start is given exactly what the step before left (the request that interrupted it or that it handed on, unless its predecessor was not torn down cleanly), no request is given to two starts, and there is a current iteration exactly after the steps that keep or make one |
| `IterationRuns.NamedOnce` | pkg/controller/reload_authority.go:50-88 | no two iterations name the same request as their outcome |
| `ListScheduling.GrahamBound` | scripts/shard-go-tests.py:50-57 | on every machine a descending greedy assignment is at most (4/3 - 1/(3m)) times any limit that another assignment of the jobs keeps |
| `ListScheduling.HeavyLastJobIsOptimal` | scripts/shard-go-tests.py:50-57 | if the last and lightest job exceeds a third of what another assignment keeps, the greedy placement of it stays within that limit |
| `ListScheduling.LastJobOvershoot` | scripts/shard-go-tests.py:50-57 | the machine that gets the last job stays within the other assignment's limit plus (1 - 1/m) of that job |
| `TestSharder.UnmeasuredWeight` | scripts/shard-go-tests.py:12-16 | an unmeasured test is serial and weighs at least a second: one if no serial test of a second or more was measured, else the median of exactly those measurements: the middle value, or the mean of the two middle ones |
| `TestSharder.SerialSecondsExact` | scripts/shard-go-tests.py:15-15 | the seconds the median is taken of: each measurement of a serial test of a second or more, as often as it occurs |
| `TestSharder.WeightTableFollows` | scripts/shard-go-tests.py:43-54 | a measured test weighs exactly what the file says, every other the unmeasured weight |
| `TestSharder.FullMatch` | scripts/shard-go-tests.py:30-30 | a name matches exactly if it is one of the kinds followed by word characters |
| `TestSharder.Listed` | scripts/shard-go-tests.py:30-31 | the inventory holds exactly the stripped lines that name a test of one of the kinds |
| `TestSharder.LightestShard` | scripts/shard-go-tests.py:55-55 | the first shard that is least by load, then by length |
| `TestSharder.PlaceLane` | scripts/shard-go-tests.py:51-57 | the placement is greedy, adds each test of the lane to one shard, and no shard is empty while another has two |
| `TestSharder.LaneNearOptimal` | scripts/shard-go-tests.py:50-57 | a shard's cost in the lane is within Graham's ratio of every other plan |
| `TestSharder.NoShardIsEmpty` | scripts/shard-go-tests.py:42-57 | with at least as many tests as shards no shard is empty |
| `TestSharder.NamesExact` | scripts/shard-go-tests.py:31-41 | the names to run hold each test of the selection, or of the inventory, exactly once |
| `TestSharder.CoverageHolds` | scripts/shard-go-tests.py:58-60 | shards that hold the names once each sort back to exactly the names |
| `TestSharder.PlaceBothLanes` | scripts/shard-go-tests.py:50-58 | non-empty sorted shards with every name exactly once, each lane within Graham's ratio of every plan |
| `TestSharder.Partition` | scripts/shard-go-tests.py:19-61 | succeeds if and only if the total is positive, the kinds and the selection are sound and there are enough tests; then the shards are sorted and not empty, hold exactly the wanted tests, each once, and are near optimal under weights that follow the file, so the closing check never fails |
| `ChangelogItems.SplitBlocks` | scripts/promote-changelog.py:34-49 | the line scan splits the text into non-empty blocks, one per top-level item, that together hold every line of text in order |
| `ChangelogItems.ParseKeepsText` | scripts/promote-changelog.py:34-70 | parsing items and printing them keeps every line of text, in order |
| `ChangelogGrammar.ScanExact` | scripts/promote-changelog.py:34-49 | the scan cuts the lines exactly where an item starts: at the first line of text, and at every line of text that stands no deeper than it and is a bullet or follows a blank line |
| `ChangelogGrammar.ParseExact` | scripts/promote-changelog.py:34-55 | one item for each such line, made of the lines up to the next: its head is their text up to the first deeper bullet, blank ends aside, its children are the items from there on |
| `ChangelogGrammar.BulletExact` | scripts/promote-changelog.py:12-12 | a bullet is one of the three signs between spaces |
| `ChangelogGrammar.SplitExact` | scripts/promote-changelog.py:78-87 | a body is cut at exactly the lines with the heading prefix, each part titled by what stands behind it, stripped |
| `ChangelogItems.ExtendExact` | scripts/promote-changelog.py:58-64 | extending without repetition: exactly the union, each once, old entries first |
| `ChangelogItems.MergeItemsBelow` | scripts/promote-changelog.py:58-64 | below every path of heads, merging extends what was there by what is new, in order |
| `ChangelogItems.MergeItemsMerged` | scripts/promote-changelog.py:58-64 | a merged list stays free of repeated heads at every depth |
| `ChangelogSections.AbsorbAt` | scripts/promote-changelog.py:78-90 | at every subsection and path a section that absorbs a body has its entries and the body's, each once, in first-appearance order |
| `ChangelogSections.AbsorbMerged` | scripts/promote-changelog.py:78-90 | a merged section stays merged |
| `ChangelogSections.RankedInOrder` | scripts/promote-changelog.py:92-104 | subsections are printed in the order Added, Changed, Deprecated, Removed, Fixed, Security, then the others as they appeared, the chart's last, and none is lost |
| `ChangelogRoundTrip.ReadsBackExact` | scripts/promote-changelog.py:34-70 | merged items, printed and parsed again, have the same heads below every path if and only if each item but the first starts with a bullet no deeper than the first, no other line would start one, and children stand deeper than their parent, at every depth |
| `ChangelogPrinting.BlocksPrint` | scripts/promote-changelog.py:92-105 | the blocks of a section, each behind a blank line, are exactly its items in tree order, then its subsections in rank order with their headings, without those that hold nothing |
| `ChangelogPrinting.ParsePrinted` | scripts/promote-changelog.py:73-105 | the printed lines parse into the same subsections, in rank order and without the empty ones, and into the items as they read back |
| `ChangelogPrinting.ReprintExact` | scripts/promote-changelog.py:73-105 | the printed section has the section's heads, at every subsection and path, if and only if each of its lists reads back |
| `ChangelogPromotion.HeadingName` | scripts/promote-changelog.py:119-127 | a heading names its version exactly if that is not empty and has no closing bracket |
| `ChangelogPromotion.ReleaseNameExact` | scripts/promote-changelog.py:11-11 | a line is a release heading exactly if it starts with a non-empty bracketed name, which is its name |
| `ChangelogPromotion.ParseDocExact` | scripts/promote-changelog.py:126-128 | cutting the text at its release headings loses no line and finds exactly its names |
| `ChangelogFolding.FoldRelease` | scripts/promote-changelog.py:108-116 | the loop over the bodies, oldest first, builds the folded section |
| `ChangelogFolding.FoldLines` | scripts/promote-changelog.py:115-116 | the folded release line by line: its heading, the introduction, then the printed sections of the merged bodies |
| `ChangelogFolding.FoldReads` | scripts/promote-changelog.py:108-116 | the folded text parses into the introduction's items and the subsections of the merged bodies in rank order |
| `ChangelogFolding.FoldReadsBack` | scripts/promote-changelog.py:108-116 | the sections of the folded text have the heads of the merged bodies, at every subsection and path, if and only if every merged list reads back |
| `ChangelogFolding.MergedBodiesExact` | scripts/promote-changelog.py:108-114 | in every subsection the merged bodies hold exactly what the whole bodies say there, each once, in first-appearance order, oldest release first |
| `ChangelogFolding.FoldIsExact` | scripts/promote-changelog.py:108-116 | the folded text says exactly what the whole bodies say, at every subsection and path, each once, in first-appearance order, oldest release first, if and only if every merged list reads back and the introduction alone says what all texts before the first sections say |
| `ChangelogFolding.FoldIsExactBelowSections` | scripts/promote-changelog.py:108-116 | without text before the first sections that holds if and only if every merged list reads back |
| `ChangelogFolding.LeadTextKept` | scripts/promote-changelog.py:112-113 | the text before the first sections survives if and only if at most one of the releases has any |
| `ChangelogFolding.LeadEntriesKept` | scripts/promote-changelog.py:112-113 | no entry before the first sections is lost if and only if every release has there only entries that the newest such text has too |
| `ChangelogExamples.EntryIsLost` | scripts/promote-changelog.py:112-113 | a concrete pair of releases of which one entry is not in the folded release |
| `ChangelogExamples.EntryIsMisnested` | scripts/promote-changelog.py:67-70 | a concrete pair of releases whose folded text puts an entry below its sibling |
| `ChangelogExamples.ParagraphsRunTogether` | scripts/promote-changelog.py:67-70 | two entries that are paragraphs read back as one entry of two lines |
| `ChangelogPromotion.FoldNames` | scripts/promote-changelog.py:108-116 | the only release heading in a folded section is its own |
| `ChangelogPromotion.OutsideIsUnchanged` | scripts/promote-changelog.py:124-158 | a version that is there changes nothing; otherwise the lines up to the unreleased heading and those from the first release not folded stay, what stood between holds exactly the pending pre-releases, all of this version, and what comes instead is the new heading or the folded release |
| `ChangelogPromotion.PromoteCut` | scripts/promote-changelog.py:124-158 | promotion keeps every line up to the unreleased heading and acts only below it, as planned from the names |
| `ChangelogPromotion.PromotionExact` | scripts/promote-changelog.py:124-151 | told from the release names: a version that is there is left alone, unless it is final and a pre-release of it is there too; a pre-release is always added; a final version succeeds if and only if every dashed name right below the unreleased heading is a pre-release of it and every pre-release of it is among those; else exactly the problem named |
| `ChangelogPromotion.NothingToPromote` | scripts/promote-changelog.py:132-139 | without an unreleased heading only a version that is there is accepted, unchanged |
| `ChangelogPromotion.FoldedBodiesExact` | scripts/promote-changelog.py:152-156 | what is folded is exactly the replaced text, cut at its release headings |
| `ChangelogPromotion.PromotionIsIdempotent` | scripts/promote-changelog.py:124-158 | promoting the result again, on any day, returns it unchanged if and only if the version was there, or can stand in a heading and is a pre-release or has no pre-release outside the folded section |
| `ChangelogPromotion.DistinctHeadingsSuffice` | scripts/promote-changelog.py:124-158 | with distinct release headings every well-formed version is promoted once and for all |
| `ChangelogPromotion.RepeatedPreReleaseBlocks` | scripts/promote-changelog.py:129-136 | a concrete changelog with a repeated pre-release whose second promotion fails |
| `ChangelogPromotion.DashAtTheEnd` | scripts/promote-changelog.py:129-136 | a version that ends in its only dash is not promoted once and for all |
| `ChangelogPromotion.BracketInside` | scripts/promote-changelog.py:119-127 | nor is one with a closing bracket |
| `ExactDecimals.AdjustedExact` | scripts/analyze-gateway-api-outcomes.py:139-139 | the adjusted exponent is that of the leading digit |
| `ExactDecimals.PrecisionSuffices` | scripts/analyze-gateway-api-outcomes.py:140-142 | the chosen precision holds as many of the largest terms as there are terms |
| `ExactDecimals.PartialSum` | scripts/analyze-gateway-api-outcomes.py:141-143 | every partial sum is exact under that precision |
| `ExactDecimals.ExactSumUnits` | scripts/analyze-gateway-api-outcomes.py:135-143 | for every list of signed decimals the result is the mathematical sum |
| `ExactDecimals.FixRounds` | scripts/analyze-gateway-api-outcomes.py:140-143 | what the context does to a sum: nothing if the digits fit, else the nearest number that ends in the surplus zeros, ties to even |
| `ExactDecimals.TooFewDigits` | scripts/analyze-gateway-api-outcomes.py:141-141 | for every precision two terms that it does not add exactly, so the choice matters |
| `LifecycleOutcomes.RowExact` | scripts/analyze-gateway-api-outcomes.py:154-168 | a pod's delta is the exact difference of the sums, not negative, and positive if and only if some series advanced, newly appearing ones included |
| `LifecycleOutcomes.FilterKeepsChecks` | scripts/analyze-gateway-api-outcomes.py:157-162 | a label filter preserves key inclusion and monotonicity |
| `LifecycleOutcomes.UsableExact` | scripts/analyze-gateway-api-outcomes.py:153-160 | the three checks pass if and only if every series of the first snapshot goes on in the second with at least its value, no new one is negative and all have the label that is filtered by |
| `LifecycleOutcomes.PodDelta` | scripts/analyze-gateway-api-outcomes.py:151-168 | succeeds exactly on usable counters; then the row has the exact sums of the samples that the filter lets through, their exact difference, and advanced exactly if that is positive |
| `LifecycleOutcomes.MetricDeltaExact` | scripts/analyze-gateway-api-outcomes.py:169-173 | a metric's delta is zero if and only if no pod advanced |
| `LifecycleOutcomes.CounterDeltas` | scripts/analyze-gateway-api-outcomes.py:146-174 | succeeds exactly on usable counters, with one exact row per metric and pod |
| `LifecycleOutcomes.Analyze` | scripts/analyze-gateway-api-outcomes.py:177-198 | valid exactly with unchanged identities, a positive interval and usable counters; passes if and only if every metric delta is zero |
| `ResourceWindow.FirstRetained` | scripts/analyze-gateway-api-resources.py:625-634 | the first evaluation inside the window |
| `ResourceWindow.InsideStays` | scripts/analyze-gateway-api-resources.py:625-657 | once inside the window every later evaluation is inside |
| `ResourceWindow.Align` | scripts/analyze-gateway-api-resources.py:579-679 | succeeds exactly on stepped evaluations with sound sources and two retained samples or more whose sources are at most twenty seconds old and not all the same; the retained grid is exactly the evaluations inside the window, the longest such suffix, and the re-check against the window start never fires |
| `ResourceWindow.MeanRateIsNormalizedCores` | scripts/analyze-gateway-api-resources.py:682-704 | the mean of the interval rates equals the counter delta over the whole window |
| `ResourceWindow.RatesExact` | scripts/analyze-gateway-api-resources.py:692-693 | each rate is the counter's advance over its interval, divided by its length |
| `ResourceWindow.SummarizeCpu` | scripts/analyze-gateway-api-resources.py:682-704 | fails exactly at the first interval in which the counter goes back; else the statistics of the rates, whose mean is the usage of the whole window |
| `ResourceWindow.SummarizeValues` | scripts/analyze-gateway-api-resources.py:497-503 | mean, nearest-rank ninety-fifth percentile, largest and last value |
| `ResourceWindow.SummedParts` | scripts/analyze-gateway-api-resources.py:716-720 | a group's value is the sum of its members' values |
| `ResourceWindow.GroupDeltaIsSum` | scripts/analyze-gateway-api-resources.py:707-729 | a group's counter delta is the sum of its members' deltas |
| `ResourceWindow.FleetDeltaIsSumOfComponents` | scripts/analyze-gateway-api-resources.py:915-936 | the fleet's counter delta is the sum of the components' deltas |
| `ResourceWindow.NearestRankExact` | scripts/analyze-gateway-api-resources.py:491-494 | with the least rank that covers the asked share of the values: that many are at or below the result and fewer are below it |
| `GatewayRequires.RegisteredBy` | scripts/gen-gateway-requires.py:58-61 | maps each literal file name to the snippet that registers it last |
| `GatewayRequires.BuildGraph` | scripts/gen-gateway-requires.py:57-68 | an edge stands exactly for an import, a render of a snippet or the mention of a file another snippet registers |
| `GatewayRequires.Close` | scripts/gen-gateway-requires.py:70-77 | adds to the shared visited set only reachable names, all of their successors, and returns exactly the kinds of what it added; terminates on cycles |
| `GatewayRequires.Requirements` | scripts/gen-gateway-requires.py:70-79 | a snippet's kinds are exactly those of all snippets reachable from it |
| `GatewayRequires.AllRequirements` | scripts/gen-gateway-requires.py:52-79 | every snippet requires exactly the gateway kinds that some snippet at the end of a chain of dependencies from it uses |
| `GatewayRequires.SurvivorsAreClosed` | scripts/gen-gateway-requires.py:70-79 | for any set of unserved kinds the surviving snippets depend only on survivors |
| `Provenance.BuildChain` | cmd/playground/provenance.go:301-313 | the chain holds one crumb for each frame in a known template with a positive line, in order, a text span's innermost line moved on by the offset |
| `Provenance.StartExact` | cmd/playground/provenance.go:326-331 | spans follow one another up to the end of the text |
| `Provenance.LinesExact` | cmd/playground/provenance.go:359-360 | the lines of a text joined by newlines are the text, and none holds one |
| `Provenance.RawLineChains` | cmd/playground/provenance.go:321-351 | each line has the chain of the span with its first non-whitespace byte, else of its first covered byte, with the exact number of newlines since the span began |
| `Provenance.AlignedChains` | cmd/playground/provenance.go:357-379 | the k-th non-blank final line has the chain of the k-th non-blank raw line, or none |

## Left out

- The Kubernetes API, watchers, informers, the event bus, HTTP servers, Helm and file access: their results are inputs of the modelled operations.
- The decoding of objects, YAML, JSON, metric files and label strings (`pkg/controller/publishedauxfiles.go:494-700`, `scripts/analyze-gateway-api-outcomes.py:38-130`): the operations start from decoded values.
- Hashes: the content digest and the sharder's tie-break are arbitrary functions. `dataplane.SnapshotCurrentFiles`, output plan IDs and `renderoutput.Snapshot.SameRoot` are values or functions that may fail.
- Go mutexes: each method of the file store and of the authority is one atomic step, as its mutex makes it; the authority's two reads, which release one lock before they take the other, are split into two methods. `LeaderTerms` and `ReloadHandOff`, where code runs outside a mutex, split the methods into atomic steps.
- client-go's leader election: only the assumption that a loop calls its stop callback before it ends, and starts one callback per acquisition.
- Timeouts, retry delays, warm-up waits and shutdown budgets: a wait may end either way at any time. `runIterations`, `superviseElection`'s pacing and `RunCleanups` are plain loops over the modelled steps.
- Draining a term before a hand-over (`pkg/controller/leader.go:184-202`): it publishes a checkpoint and changes no modelled state.
- IterationSequence.StartIteration: whether each startup stage, teardown and wait succeeds is given; what the stages themselves set up is not modelled.
- Readiness messages, log lines and health entries.
- TestSharder.Partition: takes the weights file already read; which characters are word characters is a parameter, and seconds are non-negative reals, not floats.
- Changelog text is a sequence of lines whose whitespace is ASCII; a version or date with a line break is not considered, and the progress messages are left out.
- ChangelogItems.MergeItemsBelow: the merge that updates lists and dictionaries in place is modelled on values, so sharing between the lists is not captured; the same holds for absorbing sections.
- ExactDecimals.ExactSumUnits: values are coefficient and exponent with half-even rounding; the context's exponent limits and signed zeros are not modelled.
- LifecycleOutcomes.CounterDeltas: series are association lists with distinct labels, as the dictionaries are; the deltas are not printed to strings and parsed back.
- ResourceWindow.Align: starts from series on one shared grid, so the comparison of labels and grids before line 579 is not modelled; samples are exact reals without decimal rounding.
- GatewayRequires.BuildGraph: the sets a snippet imports, renders, registers and mentions are given, the regular expressions that find them are not modelled; nor is rewriting the library files.
- Provenance.AlignedChains: whether a line is blank is a parameter, and spans and base lines are given.
- `cmd/gen-validators`, the docs scripts, probes, grace timers and the single-branch checks of the CI scripts: they would only add easy members.
