# ForgeHub's algorithms and protocols, modelled and proved

ForgeHub hosts git repositories with design files in them. Most of it is routes and database rows; between
those lie a few compact algorithms and protocols on which its promises rest. This project models them in Dafny,
one module for each, with the same branches, edge cases and constants, and proves what they promise.

- **Patterns.** `Regex` gives the emitted regular expressions a meaning of their own; `Codeowners` proves that
  the pattern compiler means what gitignore segments mean; `Globs` and `PreReceiveHook` relate the API's glob to
  the shell `case` of the pre-receive hook and to the files the hook reads.
- **Branches.** `BranchRefs` lets every writer of a branch race with every other, over an acyclic commit graph.
- **Listings.** `RepoPaths`, `LogWalk`, `LogSeparators` and `TreeCommits` read git's output as a stream, whatever its
  chunks, and prove one history walk equal to one `git log -1` for each entry, exactly where it is.
- **Workers.** `CiRunner` is the CI queue with cancellation, crashes and recovery; `CiVerdicts` tells the conclusions of
  jobs and runs from what was awaited, and `CiWholeRuns` follows whole runs and cancellations. `WasmHandler` is the handle
  of a worker thread with timeouts, crashes, respawns and late events.
- **Scenes.** `GltfIdentity` proves that two separately written walks name the same nodes alike, `GltfNames` what the
  names spell; `GltfMerge` and `GltfPastEnd` prove that merging writes documents in range, `GltfWritten` what it writes,
  node by node. `RigidGroups` and `RigidRuns` prove that constrained entities keep their distance, `RigidDeletes` what a
  deletion removes.
- **Issues.** `QuickActions` is the command interpreter with its working copy and its replayable timeline;
  `Duration` parses and prints times.
- **Small parts, completely.** `Blame`, `TextHunks` and `ByteCache`.

Code that changes things step by step is a class or a method with loops, proved against a specification function;
what is promised is then proved about that function. Protocols are state machines whose steps run from one `await`
to the next. `Wrappers`, `Collections`, `Strings`, `OrderedMaps` and `Gltf` hold what several modules share.

Where a promise fails, the code is kept and the exact condition is proved:

- a path with a line break escapes a CODEOWNERS pattern, because `.` stops there (`Codeowners.LineBreaksAreTheOnlyGap`),
  and a negated class takes a slash for one of its characters (`Codeowners.ClassesCrossSlashes`);
- the hook's `*` crosses slashes and the API's does not, so the two agree exactly on tags without a slash
  (`Globs.EnforcersAgreeWithoutSlashes`);
- creating a missing branch on a fork has no old value to guard it (`BranchRefs.CreationIsSafeOnlyWhenAbsent`), and
  the fork sync guards the branch's tip and counts on its bare name: it is safe exactly when what it counts descends
  from what it guards (`BranchRefs.CountedNameMustDescend`, `BranchRefs.CountIsSafeOnlyOnDescendants`, at the swap
  `BranchRefs.SyncIsSafeOnlyForward`). A tag with the branch's name undoes that on any branch, protected ones included
  (`BranchRefs.TagLosesLockedCommit`), and force pushes do on unprotected ones
  (`BranchRefs.SyncLosesCommitsOfUnlockedBranches`);
- a moved file is listed under its new path alone, so the entry it left can show an older commit
  (`TreeCommits.MovesHideTheEntryLeft`), exactly when its newest touch lists nothing under it
  (`TreeCommits.CreditedAboveMergeIsExact`, for the whole listing `TreeCommits.GetTreeCommits`);
- a record separator in a commit's subject cuts its record, and an entry with one in its name is never credited
  (`LogSeparators.SubjectsMustHoldNoSeparator`, `LogSeparators.SeparatorInNameStaysUncredited`);
- `failRun` completes a run without its jobs, and nothing else does (`CiRunner.FailRunLeavesJobsPending`,
  `CiRunner.OnlyFailRunLeavesPending`);
- a child index past the end in the base file is captured by a cloned node, and a merge can close a cycle over it
  (`GltfMerge.DanglingIndexIsCaptured`, `GltfPastEnd.RefusedParentClosesCycle`), on which its own walk overflows the
  stack; no merge does exactly on base files whose walk meets no such index (`GltfPastEnd.EveryMergeEnds`), and merges
  stay in range exactly on base files in range (`GltfPastEnd.EveryMergeIsWhole`);
- a constraint fixed while a move has read one of its ends and not the other loses its offset
  (`RigidRuns.FixedDuringMove`); it is safe exactly when no move in flight separates its ends
  (`RigidRuns.OffsetIsSafeOnlyUnseparated`);
- `git()` trims what git prints, so blame loses or cuts a last line that is empty or ends in a space
  (`Blame.BlameKeepsLastLine`).

## Model

| member | source | states |
|---|---|---|
| Regex.ReadSources | apps/api/src/codeowners.ts:45-47 | escaping is sound: the text of any list of literals, wildcards and classes is read back by the regular expression grammar as exactly that list, or as no expression when a class has a range out of order |
| Regex.ReadAnchored | apps/api/src/codeowners.ts:88-93 | the same for the whole anchored source that is handed to `RegExp` |
| Regex.TokensSpell | apps/api/src/codeowners.ts:53-97 | matching the assembled expression is matching its pieces one after the other |
| Codeowners.CompileBody | apps/api/src/codeowners.ts:63-86 | the index loop emits exactly the tokens of the pattern, with whole-segment `**/`, `**`, `*`, `?`, closed classes and unclosed brackets told apart |
| Codeowners.CompilePattern | apps/api/src/codeowners.ts:53-97 | null exactly when nothing is left to match or a class has a range out of order; otherwise the source reads back as the anchored or depth-free token list with its owned subtree |
| Codeowners.CompiledMeansSegments | apps/api/src/codeowners.ts:53-97 | the compiled expression accepts a path exactly when the segment-level gitignore matcher does, wherever no class meets a slash it has |
| Codeowners.SlashFreeMatchesAnySegment | apps/api/src/codeowners.ts:56-91 | a pattern without a slash names some segment, and not the last one if it ended in a slash |
| Codeowners.LineBreaksAreTheOnlyGap | apps/api/src/codeowners.ts:70-91 | all patterns without a class that has the slash have their gitignore meaning on a path if and only if the path holds no line break |
| Codeowners.ClassesCrossSlashes | apps/api/src/codeowners.ts:77-82 | a negated class has the slash: all patterns have their gitignore meaning on a path if and only if it holds neither a line break nor a slash |
| Codeowners.OwnersForPath | apps/api/src/codeowners.ts:140-148 | the last rule whose expression matches decides, for any rules, and a negated one leaves the path unowned; for compiled ones it is the last that governs the path by its segments |
| Codeowners.LastMatchDecides | apps/api/src/codeowners.ts:140-148 | the last matching expression is the last rule that governs the path by its segments, and none means no rule does |
| Codeowners.NormalizedPath | apps/api/src/codeowners.ts:130-133 | a repo-relative path stays; in front of one a leading `./` goes, and then any number of slashes |
| Codeowners.OwnersForPaths | apps/api/src/codeowners.ts:151-160 | for any rules, every owner of every path, once, at its first appearance |
| Globs.GlobMatchIsStarMatch | apps/api/src/ci/workflows.ts:123-129 | the split-and-join expression accepts exactly what "`*` is any run without a slash" accepts |
| Globs.ShellCoversGlob | apps/api/src/git-hooks.ts:76-88 | whatever the API's glob matches, the hook's shell `case` matches on the same pattern |
| Globs.EnforcersAgreeWithoutSlashes | apps/api/src/protected-tags.ts:22-29 | for all patterns of literals and stars the two enforcers agree on a tag if and only if it has no slash |
| PreReceiveHook.PreReceive | apps/api/src/git-hooks.ts:39-94 | the hook's loop over refs and rule lines exits 1 exactly when some update is refused by the branch or tag rules |
| PreReceiveHook.WrittenBranchRulesAreEnforced | apps/api/src/git-hooks.ts:117-133 | the written branch rules read back: an update is refused exactly when its branch has a rule that blocks it |
| PreReceiveHook.HookRefusesWhatTheApiRefuses | apps/api/src/git-hooks.ts:139-150 | every delete or move of a tag the API calls protected is refused on the written patterns file |
| PreReceiveHook.WrittenTagRulesAreEnforced | apps/api/src/git-hooks.ts:72-88 | the written tag patterns read back: an update of a tag is refused exactly when it deletes or moves it and a pattern matches its name, for patterns without `?` star by star, slashes included |
| PreReceiveHook.NewTagsPass | apps/api/src/git-hooks.ts:72-76 | creating a new tag is never refused |
| BranchRefs.NotAheadIsAncestor | apps/api/src/git-utils.ts:1859-1871 | nothing is ahead exactly when the head is an ancestor of the base |
| BranchRefs.StepMovesForward | apps/api/src/git-utils.ts:589-621 | whichever writer takes a step, every force-push-protected branch stays or moves to a descendant of its tip, as long as it is absent when created and no tag of its name misleads a sync |
| BranchRefs.ChangedTaskSound | apps/api/src/git-utils.ts:589-621 | what a writer has established before its guarded write makes that write go forward, even with ahead and behind counted on a newer tip than the guarded one, or on a tag that descends from it |
| BranchRefs.StepKeepsInv | apps/api/src/git-utils.ts:1346-1384 | all writers keep the invariant: web commits, fork syncs, merge and suggestion pushes, client pushes past the hook, and tags that come and go; a sync of a locked branch on the same terms |
| BranchRefs.NothingAcceptedIsLost | apps/api/src/git-hooks.ts:43-70 | over every interleaving in which no sync counts a locked branch on a tag that misses its guarded tip, a commit such a branch reaches once it reaches ever after |
| BranchRefs.WritesLand | apps/api/src/web-commit.ts:147-155 | a web commit, a finished push and a received push whose old value is the tip leave the branch at exactly the new commit, or gone, and no other branch changed; with another tip nothing changes, and no other step writes a branch |
| BranchRefs.UndisturbedPush | apps/api/src/git-utils.ts:1346-1384 | a merge or suggestion that nobody disturbs ends with the branch at the commit it built and nothing else changed |
| BranchRefs.UndisturbedWebCommit | apps/api/src/web-commit.ts:64-155 | a web commit that nobody disturbs ends with the target at the new commit, whose only parent is the old tip of the base |
| BranchRefs.UndisturbedReceive | apps/api/src/git-hooks.ts:39-94 | a client's push of the present tip lands exactly unless the branch blocks force pushes and it deletes it or is no fast-forward |
| BranchRefs.UndisturbedSync | apps/api/src/git-utils.ts:589-621 | a sync that nobody disturbs moves the branch to upstream when upstream descends from it or it is absent, and else leaves all branches |
| BranchRefs.CreationIsSafeOnlyWhenAbsent | apps/api/src/git-utils.ts:601-604 | the unguarded creation moves forward if and only if the branch is absent or already behind the upstream tip |
| BranchRefs.SyncIsSafeOnlyForward | apps/api/src/git-utils.ts:606-621 | the swap of a sync moves every branch forward if and only if the counts or the old value stop it or its guarded tip is behind upstream |
| BranchRefs.CountIsSafeOnlyOnDescendants | apps/api/src/git-utils.ts:606-621 | a sync that guards one tip and counts on another loses nothing, for every upstream and every later history, if and only if the counted tip descends from the guarded one |
| BranchRefs.CountedNameMustDescend | apps/api/src/git-utils.ts:598-606 | the count of a sync names the branch bare, and a tag of that name comes first: counting leaves the sync of a locked branch sound, for every upstream and later history, if and only if the name means nothing or a descendant of the guarded tip |
| BranchRefs.TagLosesLockedCommit | apps/api/src/git-utils.ts:598-621 | a concrete run without a force push and without a race: after a tag with the branch's name the sync loses a commit of a locked branch |
| BranchRefs.SyncLosesCommitsOfUnlockedBranches | apps/api/src/git-utils.ts:606-621 | a concrete run in which a force-pushed branch is moved away and back during a sync and loses its commit |
| Strings.ChunkCloses | apps/api/src/repo-paths.ts:38-41 | one more chunk closes what was open and leaves the rest open, wherever it was cut |
| RepoPaths.Listing.OnData | apps/api/src/repo-paths.ts:38-51 | after every chunk the paths are those of the output so far, up to the limit |
| RepoPaths.Listing.PushAll | apps/api/src/repo-paths.ts:42-50 | the inner loop takes paths up to the limit and marks the listing truncated exactly when there are more |
| RepoPaths.Listing.OnClose | apps/api/src/repo-paths.ts:52-60 | an unterminated last path counts, and a failed process rejects unless the listing was already cut off |
| RepoPaths.LsTreePaths | apps/api/src/repo-paths.ts:31-60 | the answer depends on the whole output alone, not on its chunks |
| RepoPaths.AnswerOfTree | apps/api/src/repo-paths.ts:31-60 | of any written list the first `limit` paths come back, truncated exactly when there are more |
| LogWalk.RecordRoundTrip | apps/api/src/tree-commits.ts:44-64 | a log record as git writes it parses back to its commit and paths |
| LogWalk.EntryIsPathspec | apps/api/src/tree-commits.ts:67-75 | a path falls under an entry exactly when the entry's own pathspec covers it |
| LogWalk.CreditRecordsKeeps | apps/api/src/tree-commits.ts:114-126 | once every entry has a commit no later record changes the answer, so stopping early loses nothing |
| LogWalk.Walk.Take | apps/api/src/tree-commits.ts:114-126 | one record credits its commit to the entries it lists first, uncertain once past the merge |
| LogWalk.Walk.OnData | apps/api/src/tree-commits.ts:128-139 | after every chunk the credits are those of the closed records, or the walk is done and its answer stands |
| LogWalk.Walk.OnClose | apps/api/src/tree-commits.ts:141-144 | the answer is that of all records of the output |
| LogWalk.WalkLog | apps/api/src/tree-commits.ts:83-146 | the walk's answer is independent of the chunks and of where the early stop fell |
| LogSeparators.SubjectsMustHoldNoSeparator | apps/api/src/tree-commits.ts:128-139 | a commit's record is read back for all paths and questions if and only if its subject holds no record separator |
| LogSeparators.SeparatorInNameStaysUncredited | apps/api/src/tree-commits.ts:128-139 | whatever the output, an entry whose own name holds the separator is never credited |
| TreeCommits.WrittenIsCredited | apps/api/src/tree-commits.ts:83-146 | reading the written log credits the log's own commits and paths |
| TreeCommits.CertainCredit | apps/api/src/tree-commits.ts:106-126 | an entry that is not uncertain was credited above the newest first-parent merge, by the first record that lists it |
| TreeCommits.ExactOnLine | apps/api/src/tree-commits.ts:83-126 | along the tip's line the answer of `git log -1` is the first commit that touches the entry |
| TreeCommits.CreditedAboveMergeIsExact | apps/api/src/tree-commits.ts:83-146 | for whatever paths rename detection hides, a certain credit is `git log -1`'s answer if and only if the newest commit of the line that touches the entry lists a change under it; without hidden paths it always is |
| TreeCommits.InBatches | apps/api/src/tree-commits.ts:159-165 | in any interleaving of at most `limit` open questions, opened at any time and answered in any order, every uncertain entry is replaced by its exact commit or deleted |
| TreeCommits.CreditedMeansListed | apps/api/src/tree-commits.ts:106-126 | the walk credits an entry if and only if it was asked about and some record lists a path under it |
| TreeCommits.UncertainMeansAskedAgain | apps/api/src/tree-commits.ts:106-126 | the walk leaves uncertain exactly the entries that only records from the newest merge on list |
| TreeCommits.PresentIsListed | apps/api/src/tree-commits.ts:83-146 | in a whole log without merges and hidden paths every entry present at the tip is listed and has an answer |
| TreeCommits.WhoIsCredited | apps/api/src/tree-commits.ts:179-207 | after the questions an entry has a commit if and only if some record lists it and `git log -1` has an answer |
| TreeCommits.GetTreeCommits | apps/api/src/tree-commits.ts:179-207 | the entries that get a commit are exactly those some record lists and `git log -1` has an answer for, along a whole log without merges all that are at the tip; for whatever rename detection hides, an entry that gets one gets `git log -1`'s answer if and only if it was asked for again or its newest touch is listed; `complete` holds exactly when every listed entry has a commit |
| TreeCommits.MovesHideTheEntryLeft | apps/api/src/tree-commits.ts:83-146 | a concrete move that leaves the old entry with an older commit than `git log -1` names |
| CiRunner.StepKeepsInv | apps/api/src/ci/runner.ts:106-168 | every step of queue, worker, cancelers, crash and boot keeps the invariant |
| CiRunner.CompletedRunsHaveCompletedJobs | apps/api/src/ci/runner.ts:189-250 | at every moment a completed run has only completed jobs unless `failRun` wrote it, and a successful one only successful jobs |
| CiVerdicts.ConclusionIsEarned | apps/api/src/ci/runner.ts:268-427 | at every moment of every run at which a job has a conclusion, it stopped at the first await that could not go on; the conclusion is `success` exactly when the workflow was loaded, the commit cloned and as many steps as the job has ended well and in time with no cancel seen, and `cancelled` exactly when the last await met a cancel |
| CiVerdicts.JobsEndAsTheirAwaits | apps/api/src/ci/runner.ts:268-317 | a job becomes successful only by the write after such awaits, and failed only by boot recovery or by the write after a bad await that saw no cancel; that write records which it was |
| CiVerdicts.RunsEndAsTheirJobs | apps/api/src/ci/runner.ts:208-250 | a run becomes successful only by the write after its last job, which records success when every job is successful and failure when one is not |
| CiWholeRuns.UndisturbedRun | apps/api/src/ci/runner.ts:189-250 | whatever its jobs' awaits are, a run that nothing disturbs runs each job to the await that ends it and no further, stores its conclusion, is successful exactly when all passed, changes no other row, and the next in the queue is taken up |
| CiWholeRuns.GoodRunSucceeds | apps/api/src/ci/runner.ts:189-427 | when everything goes well a run awaits every step of every job once and ends successful with all its jobs |
| CiWholeRuns.SeenCancelEndsCancelled | apps/api/src/ci/runner.ts:231-241 | once a checkpoint has seen a cancel, and with no write refused, the run, the job at hand and all jobs that had not completed end cancelled, and the others stay |
| CiWholeRuns.CancelElsewhereEndsCancelled | apps/api/src/ci/runner.ts:154-186 | a cancel of a run that is not at work pulls it from the queue and ends it and its uncompleted jobs cancelled |
| CiWholeRuns.CancelSticks | apps/api/src/ci/runner.ts:154-168 | a cancel of the run at work stays known until that run ends |
| CiWholeRuns.RefusedWriteFailsRun | apps/api/src/ci/runner.ts:120-143 | a refused write outside a job's own work fails the run, leaves its jobs, and the next in the queue is taken up |
| CiRunner.QueueIsServedInOrder | apps/api/src/ci/runner.ts:106-136 | a non-empty queue has a live worker; runs start in enqueue order, at most once, one at a time |
| CiRunner.CancelledWhileQueuedNeverStarts | apps/api/src/ci/runner.ts:154-168 | a run cancelled while queued never starts, then or after any restart |
| CiRunner.SeenCancelNeverSucceeds | apps/api/src/ci/runner.ts:202-241 | a run whose cancel flag is seen at any checkpoint never ends in success |
| CiRunner.SummarizeCheckRuns | apps/api/src/ci/summary.ts:11-25 | every job counts once, and pending is zero exactly when all are completed |
| CiRunner.RecoveryCompletes | apps/api/src/ci/boot.ts:73-97 | one full recovery completes every run and leaves a job pending exactly in runs completed with one before; pending runs and their pending jobs fail, and what was completed stays |
| CiRunner.BootIsRecovery | apps/api/src/ci/boot.ts:73-97 | the boot's steps, jobs first and runs second, add up to that recovery |
| CiRunner.NothingStaysPending | apps/api/src/ci/boot.ts:73-97 | from every reachable state, across crashes and partial recoveries, one full recovery leaves nothing pending outside `failRun` |
| CiRunner.OnlyFailRunLeavesPending | apps/api/src/ci/runner.ts:138-143 | a step leaves a completed run with a pending job if and only if it is a `failRun` write of a run that has one |
| CiRunner.FailRunLeavesJobsPending | apps/api/src/ci/runner.ts:138-143 | a concrete run that `failRun` leaves with a pending job, which no boot repairs |
| WasmHandler.WasmWorkerHandler.Fail | apps/api/src/fhr/wasm-runtime.ts:195-202 | every pending promise is settled exactly once and the worker is gone |
| WasmHandler.WasmWorkerHandler.Ensure | apps/api/src/fhr/wasm-runtime.ts:218-221 | the current worker, or a new one when there is none |
| WasmHandler.WasmWorkerHandler.Retire | apps/api/src/fhr/wasm-runtime.ts:213-216 | an idle retired handle holds no worker |
| WasmHandler.WasmWorkerHandler.CallEnter | apps/api/src/fhr/wasm-runtime.ts:224-227 | a call is counted before it waits for a worker |
| WasmHandler.WasmWorkerHandler.CallResume | apps/api/src/fhr/wasm-runtime.ts:228-242 | a call is posted to the worker of the moment under a new id, or leaves |
| WasmHandler.WasmWorkerHandler.CallLeave | apps/api/src/fhr/wasm-runtime.ts:243-246 | the last call of a retired handle stops the worker |
| WasmHandler.WasmWorkerHandler.OnResult | apps/api/src/fhr/wasm-runtime.ts:165-178 | a result settles its own call if that is still pending; a late result of a dead worker changes nothing; a crash takes the worker only if it is the current one |
| WasmHandler.WasmWorkerHandler.OnError | apps/api/src/fhr/wasm-runtime.ts:180-185 | an error of the current worker settles all that is pending, one of a dead worker changes nothing |
| WasmHandler.WasmWorkerHandler.OnExit | apps/api/src/fhr/wasm-runtime.ts:186-190 | the same for an exit with a non-zero code |
| WasmHandler.WasmWorkerHandler.OnTimeout | apps/api/src/fhr/wasm-runtime.ts:233-239 | a timeout settles every pending call exactly once and takes the worker |
| WasmHandler.IdsSettled | apps/api/src/fhr/wasm-runtime.ts:195-202 | after settling, every issued id is pending at the current worker or settled exactly once |
| WasmHandler.CallsSettled | apps/api/src/fhr/wasm-runtime.ts:195-202 | after settling, what is pending is what the remaining calls await |
| WasmHandler.Live | apps/api/src/fhr/wasm-runtime.ts:130-247 | over any sequence of events: once no call is left every id was settled exactly once, and a retired handle has no worker |
| Gltf.SlugShape | apps/api/src/gltf-parser.ts:38-40 | a slug is never empty, holds no dot and neither starts nor ends with a dash |
| GltfNames.SlugIsWords | apps/api/src/gltf-parser.ts:38-40 | a slug is the maximal runs of `a`-`z` and digits of the name in lower case, with one dash between any two, or `node` where there are none |
| GltfNames.SlugIgnoresCase | apps/api/src/gltf-parser.ts:38-40 | upper and lower case have the same slug, and a word of slug characters is its own |
| GltfNames.VisitsInOrder | apps/api/src/gltf-parser.ts:94-134 | the visits below a visit are those of the nodes its node lists, in that order and as often, and so for the top level |
| GltfNames.VisitsNameWell | apps/api/src/gltf-parser.ts:94-130 | every id of a document is the slug of its node's name, below its parent's id and a dot except at the top, or that with the first free number where it was taken |
| Gltf.EndsIsBoundedDepth | apps/api/src/gltf-parser.ts:94-136 | the walks of a document end if and only if some depth bounds their recursion |
| GltfIdentity.FirstFree | apps/api/src/gltf-parser.ts:64-74 | the search for a free number ends, at the least number whose path is not taken |
| GltfIdentity.Paths.UniquePath | apps/api/src/gltf-parser.ts:64-74 | a path not handed out before, now taken |
| GltfIdentity.Parser.WalkNode | apps/api/src/gltf-parser.ts:94-130 | the recursive walk appends exactly the entities of the preorder visits below a node |
| GltfIdentity.ParseGltf | apps/api/src/gltf-parser.ts:51-137 | throws exactly without top-level nodes; otherwise one entity a visit, in order, each an assembly where its node has children, else a part where it has a mesh, else a module, with the node's name, placement and mesh |
| GltfIdentity.Index.WalkNode | apps/api/src/merge/gltf-resolve.ts:83-94 | the merge's walk maps each visited id to its node |
| GltfIdentity.BuildEntityNodeIndexMap | apps/api/src/merge/gltf-resolve.ts:50-100 | the map holds exactly the visited ids in order, each with its node, the synthetic root with -1 |
| GltfIdentity.VisitsSound | apps/api/src/gltf-parser.ts:51-137 | on every document whose walk ends ids are pairwise distinct, a parent comes before its children and lists them, and all that a visited node lists is visited below it |
| GltfIdentity.IdsAgree | apps/api/src/merge/gltf-resolve.ts:50-100 | parser and index give the same ids in the same order, and an id leads to the node its entity was made from |
| GltfMerge.CloneAppends | apps/api/src/merge/gltf-resolve.ts:204-222 | cloning only appends, and what it appends lists nothing but what was appended before |
| GltfMerge.CloneIsomorphic | apps/api/src/merge/gltf-resolve.ts:204-222 | cloning throws exactly when the source subtree has an index out of range; otherwise the new root stands for the very tree the source index stands for |
| GltfMerge.CloneSize | apps/api/src/merge/gltf-resolve.ts:204-222 | one node is appended for every occurrence in the source subtree |
| GltfMerge.AttachKeepsWhole | apps/api/src/merge/gltf-resolve.ts:224-238 | attaching a fresh subtree to a whole document keeps every index in range and closes no cycle |
| GltfMerge.AttachKeepsInside | apps/api/src/merge/gltf-resolve.ts:224-238 | attaching a fresh subtree to a document whose walk meets no index past its end leaves it such a document |
| GltfMerge.RemoveKeepsWhole | apps/api/src/merge/gltf-resolve.ts:240-255 | removing a node keeps every index in range, leaves it listed nowhere, and brings back no node removed before |
| GltfMerge.PatchedNodes | apps/api/src/merge/gltf-resolve.ts:284-295 | a base node's name, placement and mesh are touched only by the merged entities that point at it, and its children are only added to |
| GltfMerge.PatchedSize | apps/api/src/merge/gltf-resolve.ts:290-293 | each added entity brings its whole incoming subtree, once more for descendants that are added entities too |
| GltfMerge.MaterializedIsWhole | apps/api/src/merge/gltf-resolve.ts:261-307 | from a whole base file no walk of a merge recurses over a cycle, in what it writes every index is in range and there is no cycle, and a dropped base entity is listed by no node and no top level |
| GltfMerge.DroppedAreGone | apps/api/src/merge/gltf-resolve.ts:297-302 | from any base file, whatever is written lists a dropped base entity nowhere |
| GltfMerge.OnlyPastEndIsCaptured | apps/api/src/merge/gltf-resolve.ts:217-221 | whatever nodes are cloned, no old node lists one before it is attached, if and only if no old node lists an index past the end |
| GltfMerge.DanglingIndexIsCaptured | apps/api/src/merge/gltf-resolve.ts:217-221 | a concrete node list whose index out of range lists the first clone before it is attached |
| GltfMerge.MergedDocument.CloneNodeSubtree | apps/api/src/merge/gltf-resolve.ts:204-222 | the recursive append in place is the specified clone |
| GltfMerge.MergedDocument.AttachChildToParent | apps/api/src/merge/gltf-resolve.ts:224-238 | the child goes last to the parent's node, or to the top level where there is none |
| GltfMerge.MergedDocument.RemoveNodeFromDoc | apps/api/src/merge/gltf-resolve.ts:240-255 | the loop in place strips the index everywhere and leaves a marker |
| GltfMerge.MaterializeGltfMerge | apps/api/src/merge/gltf-resolve.ts:261-307 | on all files on which its walks end, the three loops in place give the specified document, or throw; `GltfWritten` says what that document holds |
| GltfWritten.MergedNodeIsWritten | apps/api/src/merge/gltf-resolve.ts:102-111 | in what a merge writes, a base node that is not dropped has the name of the last merged entity that leads to it, that entity's placement where it has one and else, if it is the only one, the base's, and the base's mesh |
| GltfWritten.OtherNodesStay | apps/api/src/merge/gltf-resolve.ts:284-302 | a base node that no merged entity leads to and that is not dropped keeps its name, placement and mesh |
| GltfWritten.ListsAreKept | apps/api/src/merge/gltf-resolve.ts:284-302 | every list of a kept base node, and the top level, is the base's without exactly the dropped nodes, in order, with only new nodes at its end |
| GltfWritten.AdditionHangs | apps/api/src/merge/gltf-resolve.ts:290-293 | an entity the base lacks is cloned below a new last node that unfolds to its incoming tree and is put at the end of its parent's list, or of the top level; nothing else changes |
| GltfWritten.LoneAdditionIsWritten | apps/api/src/merge/gltf-resolve.ts:261-307 | the file that a merge with one added entity writes: its incoming tree hangs last below the node its parent's id leads to by then, or at the top level, and all other lists are the base's without the dropped nodes |
| GltfPastEnd.InsideMeansNothingPastEnd | apps/api/src/gltf-parser.ts:94-136 | the condition on ranks that merging keeps is that the walk meets no index past the end |
| GltfPastEnd.EveryMergeEnds | apps/api/src/merge/gltf-resolve.ts:261-307 | no merge into a base file is refused by a walk that overflows the stack, for every incoming file and every merged map, if and only if the walk of the base meets no index past the end of its nodes |
| GltfPastEnd.EveryMergeIsWhole | apps/api/src/merge/gltf-resolve.ts:261-307 | every merge into a base file with top-level nodes throws or writes one in range and without cycles, if and only if the base is such |
| GltfPastEnd.RefusedParentClosesCycle | apps/api/src/merge/gltf-resolve.ts:261-307 | a concrete base file with an index past the end: taking an entity over without its parent closes a cycle, and the closing parse overflows the stack |
| RigidGroups.CollectPositionFixedGroup | apps/api/src/routes/entities.ts:28-59 | the search returns the least set around the seed that no position-fixed constraint leaves |
| RigidGroups.ReachIsLinked | apps/api/src/routes/entities.ts:45-58 | that set holds exactly the entities a path of constraints leads to |
| RigidGroups.CollectSubtreeIds | apps/api/src/routes/entities.ts:7-26 | undisturbed, the collector returns the root and everything below it, each once |
| RigidRuns.StepKeepsNothingDangling | apps/api/src/routes/entities.ts:157-183 | no step leaves a constraint end or a parent reference to a deleted entity |
| RigidRuns.RunLeavesNothingDangling | apps/api/src/routes/entities.ts:157-183 | however deletions race with each other and with new constraints, nothing dangles |
| RigidDeletes.FinishedDeletionTakesSubtree | apps/api/src/routes/entities.ts:157-183 | however it races, a deletion that finishes leaves nothing of its root's subtree as it stands then, and removes only what it collected and the constraints that touch it |
| RigidDeletes.DeletionAloneTakesExactly | apps/api/src/routes/entities.ts:157-183 | alone it removes exactly the root and everything below it, exactly the constraints with an end there, and nothing else |
| RigidDeletes.DeletionAloneEnds | apps/api/src/routes/entities.ts:7-26 | and on a forest it can always be run to its end |
| RigidDeletes.RootDeletionTakesAll | apps/api/src/routes/entities.ts:151-155 | deleting an entity without a parent deletes the whole snapshot |
| RigidRuns.StepKeepsOffset | apps/api/src/routes/entities.ts:100-117 | no step, a racing write included, changes the offset of a constraint whose ends no move in flight separates |
| RigidRuns.RunKeepsOffset | apps/api/src/routes/entities.ts:100-117 | over every run a standing position-fixed constraint that no move in flight separates at first keeps its ends exactly as far apart as they were |
| RigidRuns.OffsetIsSafeOnlyUnseparated | apps/api/src/routes/entities.ts:100-117 | all legal runs in which a fixed constraint stands keep its offset if and only if no move in flight separates its ends now; a move whose write will be refused separates nothing |
| RigidRuns.StepIsSafeOnlyUnseparated | apps/api/src/routes/constraints.ts:157-165 | where the offsets of all fixed constraints are safe for ever, a step leaves them so, with any it fixes, if and only if no move in flight separates the ends of what it fixes |
| RigidRuns.SeparatedMoveBreaks | apps/api/src/routes/entities.ts:100-117 | letting a move finish whose group has one end and not the other changes the offset |
| RigidRuns.PlacedBreaks | apps/api/src/routes/entities.ts:100-117 | a move that read its places so that they separate the ends breaks the offset at once, or once another move has carried both ends away |
| RigidRuns.FixedDuringMove | apps/api/src/routes/constraints.ts:162-165 | a concrete run in which a constraint fixed during a move loses its offset |
| RigidRuns.MoveShiftsGroup | apps/api/src/routes/entities.ts:100-117 | an uninterrupted move shifts exactly the connected component, by exactly its delta |
| RigidRuns.UndisturbedMove | apps/api/src/routes/entities.ts:28-117 | the same told on the constraints: an uninterrupted move shifts exactly what chains of position-fixed constraints tie to its seed, and changes nothing else |
| RigidRuns.WriteIsAllOrNothing | apps/api/src/routes/entities.ts:100-117 | the write of a move changes nothing when an entity it read is gone, and otherwise puts every place it read, shifted |
| QuickActions.RowIsTold | apps/api/src/quick-actions.ts:299-359 | closing, titles and assignments keep the row sound and tell their change in one event |
| QuickActions.WorkIsTold | apps/api/src/quick-actions.ts:409-477 | times stay non-negative, and milestones tell their change in one event |
| QuickActions.AddTold | apps/api/src/quick-actions.ts:362-379 | the events of added labels tell exactly the labels gained |
| QuickActions.DropTold | apps/api/src/quick-actions.ts:380-407 | the events of removed labels tell exactly the labels lost |
| QuickActions.EffectIsTold | apps/api/src/quick-actions.ts:299-480 | one command keeps `closedAt` set exactly when closed and times non-negative, and its events tell the whole change |
| QuickActions.EffectsAreTold | apps/api/src/quick-actions.ts:241-487 | replaying the events of any command list over the initial issue gives the final state, title, assignee, labels and milestone |
| QuickActions.RightsBind | apps/api/src/quick-actions.ts:241-243 | an outsider changes nothing and is always rejected; an author who is no writer changes only state, title and assignee |
| QuickActions.EffectDoes | apps/api/src/quick-actions.ts:241-487 | what each command does to row and labels, told alone: those who may close, reopen, title, assign, and so on; spends add up and stop at zero, an estimate is the parsed minutes, a title the trimmed argument, `me` the actor, a handle its user, a milestone the first of that folded title; a command is rejected exactly when the right is missing or the argument names nothing |
| QuickActions.LabelEffectDoes | apps/api/src/quick-actions.ts:362-379 | the labels after `/label` are those before and the first of each folded name; each name of no label is rejected |
| QuickActions.UnlabelEffectDoes | apps/api/src/quick-actions.ts:380-407 | the labels after `/unlabel` are those before without the named ones, or without all of the repository where none is named |
| QuickActions.EffectsDo | apps/api/src/quick-actions.ts:241-487 | the commands of a list do so one after the other, each to what the one before left |
| QuickActions.FirstWordIsFirst | apps/api/src/quick-actions.ts:333-334 | the token of an assignment is what stands between the leading spaces of the argument and the next one |
| QuickActions.TitleComesThrough | apps/api/src/quick-actions.ts:145-153 | a milestone title comes through plain, after a `%`, in quotes, or both |
| QuickActions.IssueCommands.SetState | apps/api/src/quick-actions.ts:301-314 | closing and reopening |
| QuickActions.IssueCommands.SetTitle | apps/api/src/quick-actions.ts:317-328 | changing the title |
| QuickActions.IssueCommands.SetAssignee | apps/api/src/quick-actions.ts:331-349 | assigning `me` or a handle |
| QuickActions.IssueCommands.ClearAssignee | apps/api/src/quick-actions.ts:350-359 | unassigning |
| QuickActions.IssueCommands.AddLabels | apps/api/src/quick-actions.ts:362-379 | unknown names are rejected one by one and the others are added |
| QuickActions.IssueCommands.DropLabels | apps/api/src/quick-actions.ts:380-407 | the named labels go, or all when none is named |
| QuickActions.IssueCommands.SetEstimate | apps/api/src/quick-actions.ts:410-418 | setting an estimate |
| QuickActions.IssueCommands.AddSpent | apps/api/src/quick-actions.ts:419-433 | logging time, added to what was spent and never below zero |
| QuickActions.IssueCommands.SetMilestone | apps/api/src/quick-actions.ts:452-466 | setting a milestone by title |
| QuickActions.IssueCommands.ClearMilestone | apps/api/src/quick-actions.ts:467-477 | leaving a milestone |
| QuickActions.IssueCommands.ApplyAll | apps/api/src/quick-actions.ts:241-487 | whatever query or write fails, the working copy is the stored row and label set after each command, the row is sound, and while no event is lost the timeline tells the whole change |
| QuickActions.ApplyIssueCommands | apps/api/src/quick-actions.ts:241-487 | the same from the start; when nothing fails row, events and notes are those of the commands in order, and every command does what it says to the row and labels the one before it left |
| QuickActions.PullCommands.ApplyAll | apps/api/src/quick-actions.ts:196-237 | the local state is the stored one, a merged pull request never changes, the events tell the state, and when nothing fails a command is rejected exactly if it asks for no state, the right is missing or the pull request is merged |
| QuickActions.LastAskCounts | apps/api/src/quick-actions.ts:196-237 | only the last command that asks for a state counts, for those who may ask |
| Duration.ParseDuration | apps/api/src/duration.ts:41-63 | the loop over the matches sums the chunks of the compact text, with its sign; null for everything else |
| Duration.SpelledChunks | apps/api/src/duration.ts:30-31 | a text taken for chunks is the chunks written one after the other |
| Duration.ChunksOfSpelled | apps/api/src/duration.ts:30-31 | and any chunks written one after the other are taken for exactly those |
| Duration.FormatDuration | apps/api/src/duration.ts:69-84 | the greedy loop prints the greedy parts of the nearest whole number of minutes |
| Duration.RoundTrip | apps/api/src/duration.ts:41-84 | every whole number of minutes parses back from its printed form, in upper case and with a plus too, and its negative from that with a minus |
| Duration.ParsedSum | apps/api/src/duration.ts:54-63 | two unsigned durations written one after the other parse to their sum |
| Duration.SignsCount | apps/api/src/duration.ts:46-52 | a leading plus changes nothing and a leading minus negates |
| Duration.SpacesAndCaseDoNotMatter | apps/api/src/duration.ts:43-56 | two texts that differ in spaces alone, wherever they stand, or in the case of units, are the same duration |
| Duration.PrintedIsCanonical | apps/api/src/duration.ts:69-84 | the printed parts are in order, each unit at most once, minutes below 60, hours below 8, days below 5, and no other such parts have that sum |
| Blame.ParseBlamePorcelain | apps/api/src/git-utils.ts:1776-1834 | the two loops compute the specified hunks |
| Blame.ReadEntries | apps/api/src/git-utils.ts:1782-1808 | headers, metadata blocks and content lines are read in turn |
| Blame.Coalesce | apps/api/src/git-utils.ts:1810-1833 | consecutive lines of one commit become one hunk |
| Blame.BlockLearned | apps/api/src/git-utils.ts:1793-1803 | the block of a commit is read as its author, mail, time and summary |
| Blame.HeaderRead | apps/api/src/git-utils.ts:1784-1787 | a header line is read as its commit and final line |
| Blame.BlameRoundTrip | apps/api/src/git-utils.ts:1776-1834 | any attribution rendered with metadata at first mention only is read back as hunks that tile the file, hold its lines, differ in commit from their neighbours and carry the right metadata, whatever the lines contain |
| Blame.CoalescedFlat | apps/api/src/git-utils.ts:1810-1833 | coalescing keeps every line in order, whatever was read |
| Blame.TrimmedBlame | apps/api/src/git-utils.ts:23-27 | through the trimming the last line loses the spaces at its end, or is lost when blank, and the hunks tile what is left with the right metadata |
| Blame.BlameKeepsLastLine | apps/api/src/git-utils.ts:1837-1848 | every line comes through unchanged if and only if the last one is not empty and does not end in a space |
| TextHunks.GroupPlainTextHunks | apps/api/src/merge/text-hunks.ts:16-37 | one numbered hunk for every maximal run of changes |
| TextHunks.MaterializePlainTextMerge | apps/api/src/merge/text-hunks.ts:42-66 | the loops give the unchanged lines and for each run its picked side |
| TextHunks.OneSideIsThatText | apps/api/src/merge/text-hunks.ts:42-66 | with every hunk on one side, that side's text comes out line for line |
| TextHunks.IdsAreOneToOne | apps/api/src/merge/text-hunks.ts:32-34 | hunks and ids correspond one to one |
| TextHunks.PickIsLocal | apps/api/src/merge/text-hunks.ts:53-62 | for any pick of a hunk the same lines come before and after, and its slice is exactly the picked side |
| ByteCache.SetEvictsShortestPrefix | apps/api/src/fhr/byte-cache.ts:23-37 | a set evicts the shortest least-recently-used prefix that suffices, and never the new entry |
| ByteCache.SetKeepsWhatFits | apps/api/src/fhr/byte-cache.ts:23-37 | an entry is kept by a set exactly when it and all those used after it fit into the budget together |
| ByteCache.OthersStay | apps/api/src/fhr/byte-cache.ts:13-37 | a read and a refused value keep every entry, and storing a value replaces only that of its own key |
| ByteCache.Cache.Get | apps/api/src/fhr/byte-cache.ts:13-21 | a hit goes last |
| ByteCache.Cache.Set | apps/api/src/fhr/byte-cache.ts:23-37 | an oversized value is refused; otherwise the entry goes last and the surplus goes from the front |
| ByteCache.Cache.Clear | apps/api/src/fhr/byte-cache.ts:39-42 | empty, with no bytes |
| ByteCache.RunKeeps | apps/api/src/fhr/byte-cache.ts:7-43 | after any calls: one entry a key, within the budget, each the last value stored, least recently used first |

## Left out

- Routes, authentication, mail, webhooks, SSH, DNS, the web app: no algorithm of their own.
- git, the database and worker threads are abstract: a ref store with compare-and-swap and fast-forward push, atomic
  queries and writes that may be refused, messages that may come late. A write that is stored although its
  acknowledgement is lost is not modelled.
- Codeowners.CompilePattern: classes without a backslash inside, which would start an escape; characters are those of
  the basic multilingual plane.
- Codeowners.CompiledMeansSegments: `**` only as a whole segment, and no slash inside a class; elsewhere these have a
  token-level meaning (Regex.TokensSpell) but no segment-level one. A class ends at its first `]`.
- Codeowners.OwnersForPath: the rules are an input; the reading of the file into rules is left out.
- Globs.ShellCoversGlob: patterns without `[` or a backslash, which the shell reads differently.
- PreReceiveHook.PreReceive: one push at a time, on rules that do not change meanwhile; lines of the tag file without
  `[` or a backslash. Deletion of branches through the API is left out.
- BranchRefs: the trees of commits, conflicts and the contents of merges.
- BranchRefs.StepMovesForward: excludes, for locked branches, the unguarded creation while somebody else creates the
  branch, and the count on a tag of the branch's name that does not descend from the guarded tip; the exact conditions
  are in CreationIsSafeOnlyWhenAbsent and CountedNameMustDescend. A tag stands for whatever git finds under the bare
  name before the branch. A clone's checkout or push of a name that is also a tag fails or leaves the branch alone.
- TreeCommits.WrittenIsCredited: no record separator in subjects and paths; LogSeparators says what one does.
- TreeCommits.GetTreeCommits: what rename detection hides is any set of paths for each commit. Below the newest merge
  the log may be anything. Caches are not modelled; the length limit of the log is any prefix of it. The credits are a
  true map; in the source they are a plain object, in which entries named like its inherited members (`constructor`,
  `__proto__`) are never credited.
- CiRunner: log files, retention, workspaces on disk, process groups and automatic merging. A run is enqueued at most
  once, and cancelled only after that.
- WasmHandler.Live: what a worker answers. A spawn reports ready, an initialisation error or an error; an exit before
  that settles nobody. Events may come in any order, which is more than the event loop allows.
- GltfIdentity.VisitsSound: rotations, JSON, and documents on which the source's walk recurses over a cycle, until the
  full stack throws. The model's own stack has no limit.
- GltfMerge.MaterializedIsWhole: the merged entities are an input; how sides are picked field by field is left out.
- GltfPastEnd.EveryMergeEnds: over all merged maps, which are more than sides can pick; RefusedParentClosesCycle shows
  a picked one.
- RigidGroups.CollectSubtreeIds: undisturbed; with other requests in between it is the state machine of RigidRuns.
- RigidRuns.RunKeepsOffset: rotations, the refusal of a second constraint between the same ends, and rounding: places
  are reals.
- GltfWritten.LoneAdditionIsWritten: with more than one added entity, later additions also hang below earlier ones; the
  step of each is AdditionHangs, and their count GltfMerge.PatchedSize.
- QuickActions.ApplyIssueCommands: the splitting of a comment into commands and of label arguments into names, the texts
  of the answers and the time of closing. Folding to lower case is a parameter.
- Duration.ParseDuration: numbers beyond 2^53.
- Blame.ParseBlamePorcelain: the author time is kept as text; its conversion to a date is left out.
- ByteCache: a value is its bytes and one more field.
