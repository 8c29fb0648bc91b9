# Verification of ape's shared-file protocols

`ape` starts model sessions, lets them run detached from the shell that started
them, and keeps every fact about them in files that several processes read and
write: session locks, run handles, a live-session registry, a git work tree, a
published credential. This project models the parts of `ape` where being right is
a matter of whole runs rather than of one function, and proves what they promise.
`dafny verify dfyconfig.toml` checks all of it.

| module | what it is |
|---|---|
| `SessionLocks` | session locks as a transition system over any number of processes; mutual exclusion over every run, with the atomic and the split granularity of clearing, take-over, retarget and release |
| `LockDirectory` | the same operations as one process performs them on the files: the acquire loop, retarget, release, a launch's two locks, the service daemon's probe |
| `LockRefinement` | the second is a run of the first |
| `Handoff` | the hand-off of a lock from a `--detach` launcher to its supervisor and its run |
| `HandleFile` | the run handle that three processes read, change and write back |
| `Waiting` | `ape run wait`: ended, still running (75) or lost (76), over every timeline |
| `NestingRule` | which session may start which, found from the environment and the process ancestry |
| `LiveSessions` | the rule and the locks together: one live loop, one live child |
| `CommitShare` | which of two overlapping runs claims a commit |
| `Porcelain`, `InstallRevert` | an install that is committed, or reverted to what it found |
| `Fences`, `CodeSpans`, `LinkGraph` | the Markdown scanner and the link graph of the docs checker |
| `HookFold`, `StageUsage` | which transcript a step is charged for, and what a stage is charged |
| `Credentials` | publishing a credential by hard link or by copy |
| `CapUtf8` | cutting a result to a number of bytes |

`Options` and `Scanning` hold what several of these share.

Processes are identities (a pid with its start time), times are numbers, and what
the code asks of the system is a parameter: a probe's answer, a read that fails,
how git ignores, whether a grant works.

Where a promise does not hold of the code as it stands, the code is modelled as it
is, the failing schedule or input is a lemma, and the exact condition is proved:

- Clearing a stale lock is a read and then a remove. Between the two another
  session may take the lock (`SplitClearBreaksExclusion`); a lock released between a
  refused link and the read counts as damaged, so that no stale lock is needed
  (`SplitClearOfReleasedLock`); and a launcher's retarget or a supervisor's release may
  reach a lock taken since its read (`SplitRetargetBreaksExclusion`,
  `SplitReleaseBreaksExclusion`). The naming invariant, which gives exclusion, holds
  throughout a run exactly when every step is harmless to the file it finds
  (`SplitRunExactly`), and after any other step two live holders can follow
  (`HarmBreaksExclusion`).
- On a refused launch, a lock the token already held after the one that refused is
  still held; the comment in `acquire` says nothing is (`RefusalHoldsNothing`,
  `RefusalLeavesLaterLock`).
- A launcher that cannot record the supervisor's pid gives its lock up although the
  supervisor goes on (`RecordPidFailureUncovers`); a supervisor that returns before it
  starts the run neither releases nor records (`SupervisorGivesUpEarly`), and outside
  these faults the lock is covered throughout; a supervisor killed after the
  retarget lets another session in beside its run (`KilledSupervisorLetsAnotherIn`,
  `TwoLiveLoops`). Live sessions hold their locks throughout exactly when none is lost
  under one, and then no two share a lock; after any loss a second live session can
  follow (`LiveSessionsHoldTheirLocks`, `OneLoopOneChild`, `LossLetsAnotherIn`).
- A retarget written after the supervisor's release brings the lock of an ended run
  back (`LateWriteRevivesLock`, `StaysReleasedExactly`).
- A handle saved from a copy read earlier erases an exit or a pid
  (`EarlierCopyErasesExit`, `RunNoteErasesPid`), and then a wait may return the run's
  code and the next one 76 (`ErasedExitIsForgotten`, `SettledExactly`).
- A project whose configuration puts the loop skill on its own allow-list has
  depth-2 sessions whose parent is not a depth-1 loop run
  (`LoopInAllowListBreaksRule`). A detached run is gated again by its environment
  alone, so a loop's child whose marker was scrubbed is recorded at depth 1
  (`ScrubbedDetachLosesParent`, `LaunchKeepsRuleExactly`).
- A run that keeps no manifest and is gone leaves nothing to judge by
  (`GoneWithoutManifestIsClaimed`).
- Removing a created board reaches ignored files that were under `.aboard/` before
  (`RevertRestoresExactly`). On a branch with no commit yet the precheck passes and
  the revert's checkout fails, so the installed files stay
  (`UnbornBranchKeepsInstall`). git reads what it ignores from files the install may
  write: the revert leaves added files it is not shown (`NewRulesKeepInstall`,
  `OldRulesKeepInstall`), and the commit takes a person's file that an edit shows
  (`RevealedFileIsCommitted`), which the rewrite of the root .gitignore guards
  against except for names of installed skills (`ClaudeIgnoreExactly`).
- A work-tree rename is followed by its source path too, and the parser reads that
  as an entry (`ParseExactly`, `SwallowedEntryHidesMisread`).
- A `UserPromptSubmit` outside a step seeds no transcript
  (`PromptOutsideStepIsIgnored`); a stage that goes back to an earlier transcript
  charges it twice (`ReturnIsChargedTwice`, `ChargedOnceExactly`).
- A link published over with a copy leaves the operator's own credential granted,
  and a revoke does not take that back (`AbandonedGrantStays`); a link whose grant
  failed is later taken for a copy (`FailedGrantMislabels`).

## Model

| member | source | states |
|---|---|---|
| `SessionLocks.StepKeepsInv` | internal/apecmd/nesting.go:433-494 | every acquire, judgement, take-over, retarget, release, start and death keeps the invariant: a granted token whose recorded process lives is the one its lock file names |
| `SessionLocks.RunKeepsInv` | internal/apecmd/nesting.go:433-494 | every run of any number of processes keeps it |
| `SessionLocks.LiveHolderIsNamed` | internal/apecmd/nesting.go:402-494 | mutual exclusion: over every interleaving a live holder is named by the lock file, and a lock has at most one |
| `SessionLocks.SplitRunExactly` | internal/apecmd/nesting.go:455-494 | with reads and actions apart, over every run: the invariant holds at every state exactly when every step is harmless, told from the file as it is when the step acts |
| `SessionLocks.SplitRunKeepsExclusion` | internal/apecmd/nesting.go:455-494 | so a harmless run ends with at most one live holder for each lock |
| `SessionLocks.SplitStepExactly` | internal/apecmd/nesting.go:455-494 | each split clear, take-over, retarget and release keeps the invariant exactly when it is harmless |
| `SessionLocks.SplitWriteExactly` | internal/apecmd/nesting.go:462-487 | a split take-over or retarget keeps it exactly when the file it overwrites names no other token's live process |
| `SessionLocks.SplitClearExactly` | internal/apecmd/nesting.go:455-464 | a split clear keeps the naming invariant exactly when the file it removes names no live process |
| `SessionLocks.SplitReleaseExactly` | internal/apecmd/nesting.go:490-494 | a split release keeps it exactly when the file it removes names no other token's live process |
| `SessionLocks.HarmBreaksExclusion` | internal/apecmd/nesting.go:455-494 | every step that is not harmless can be followed by two live holders of the lock it acts on |
| `SessionLocks.SplitClearBreaksExclusion` | internal/apecmd/nesting.go:455-464 | the schedule on which two acquirers clear one stale lock and both hold it, live |
| `SessionLocks.SplitClearOfReleasedLock` | internal/apecmd/nesting.go:449-460 | the schedule on which a lock released between a refused link and the read is cleared although another session has taken it |
| `SessionLocks.SplitRetargetBreaksExclusion` | internal/apecmd/nesting.go:475-487 | the schedule on which a launcher's retarget overwrites the lock another session took after the run had given it up |
| `SessionLocks.SplitReleaseBreaksExclusion` | internal/apecmd/nesting.go:490-494 | the schedule on which a supervisor's release removes the lock another session took from its ended run, and a third session takes it too |
| `LockDirectory.LockDir.AcquireSessionLock` | internal/apecmd/nesting.go:433-470 | taken within two tries exactly when absent, damaged, stale or this token's; otherwise the holder is reported and nothing changes |
| `LockDirectory.LockDir.RetargetSessionLocks` | internal/apecmd/nesting.go:475-487 | exactly this token's locks get the new pid and its start time, and then refuse every other token; every other field and file stays |
| `LockDirectory.LockDir.ReleaseSessionLock` | internal/apecmd/nesting.go:490-494 | removes this token's lock and no other token's |
| `LockDirectory.SessionLaunch.constructor` | internal/apecmd/nesting.go:196-212 | a launch starts with no token and no locks |
| `LockDirectory.SessionLaunch.Acquire` | internal/apecmd/nesting.go:341-363 | all or nothing: taken exactly when no live run of another token holds the loop lock a loop launch needs nor the parent's child lock a launch at depth 2 needs, and then both name the token; otherwise the holder of the first that refuses is reported and those before it given back |
| `LockDirectory.NeededExactly` | internal/apecmd/nesting.go:346-361 | the loop lock for a loop launch, the parent's child lock below depth 1, and no other |
| `LockDirectory.HeldExactly` | internal/proctree/same.go:17-34 | a lock holds while its process runs with the start time recorded, two seconds either way; a gone or reused pid does not hold it |
| `LockDirectory.ChildLocksAreApart` | internal/apecmd/nesting.go:374-384 | runs whose ids hold no separator share a child lock only when they are one run |
| `LockDirectory.SessionLaunch.AcquireBoth` | internal/apecmd/nesting.go:346-362 | the loop lock, then the child lock, in that order |
| `LockDirectory.SessionLaunch.AcquireNext` | internal/apecmd/nesting.go:353-361 | one more lock, or everything taken before it released |
| `LockDirectory.SessionLaunch.Release` | internal/apecmd/nesting.go:224-231 | drops exactly the launch's locks that name its token |
| `LockDirectory.GrantTakesAll` | internal/apecmd/nesting.go:341-363 | with every needed lock takeable, the token is named on all of them and no other lock changes |
| `LockDirectory.RefusalGivesBack` | internal/apecmd/nesting.go:353-360 | after a refusal a needed lock names the token exactly when it did before and comes after the one that refused |
| `LockDirectory.RefusalHoldsNothing` | internal/apecmd/nesting.go:336-363 | so nothing is held after a refusal exactly when the token held no later needed lock before |
| `LockDirectory.RefusalLeavesLaterLock` | internal/apecmd/nesting.go:346-352 | a refused loop lock leaves a child lock that named the token before |
| `LockDirectory.ProbeChildSlot` | internal/apecmd/service_submit.go:76-83 | the daemon's probe is refused exactly when a live run of another token holds the parent's child lock, or the loop lock for a loop job; it leaves nothing held and touches no lock a live run holds |
| `LockRefinement.AcquireRefines` | internal/apecmd/nesting.go:433-470 | an acquire is a run of the protocol's steps that leaves the same files and grants the token exactly when it is taken |
| `LockRefinement.ReleaseRefines` | internal/apecmd/nesting.go:490-494 | a release is the protocol's release step, and enabled |
| `LockRefinement.RetargetRefines` | internal/apecmd/nesting.go:475-487 | a retarget of one lock, to a process that was started, is the protocol's retarget step, and enabled |
| `Handoff.NextKeepsInv` | internal/apecmd/detach.go:226-311 | every event of launcher, supervisor, run and strangers keeps the hand-off's invariant |
| `Handoff.HistoryKeepsInv` | internal/apecmd/detach.go:784-850 | so does every history without the excluded faults |
| `Handoff.LockIsCoveredThroughout` | internal/apecmd/detach.go:226-311 | from the launcher's acquire until the run gives the lock up or ends, in every interleaving, the lock names this run and a live process; once the exit is recorded it names the run no more (each update of the lock one step) |
| `Handoff.LockIsCoveredApart` | internal/apecmd/nesting.go:462-487 | the first half still holds with the read and the write of the retarget and of the run's take-over apart |
| `Handoff.ApartNextKeepsInv` | internal/apecmd/nesting.go:462-487 | every event of that finer protocol keeps: the run is over, or the hand-off's invariant holds and the launcher's copy names the run |
| `Handoff.StaysReleasedExactly` | internal/apecmd/detach.go:305-308 | the second half, at every state: after the supervisor's release the lock never names the run again exactly when the launcher writes no copy naming it after that release |
| `Handoff.StaysReleasedFromBegin` | internal/apecmd/detach.go:305-308 | the same for every history from the start |
| `Handoff.RunTakesOverAtOnce` | internal/apecmd/nesting.go:462-463 | meanwhile nobody else is granted the lock, and the run's first judgement takes it over on either side of the retarget |
| `Handoff.ForeignStepKeepsLock` | internal/apecmd/nesting.go:433-494 | another token's step leaves a covered lock alone and never makes it this run's |
| `Handoff.ReleaseIsOwn` | internal/apecmd/detach.go:788-795 | no release of the protocol removes another token's lock |
| `Handoff.ReleaseFrees` | internal/apecmd/detach.go:788-795 | and each leaves the lock free of this run |
| `Handoff.SupervisorKilledExactly` | internal/apecmd/detach.go:757-850 | a supervisor that is killed, or gives up before it starts the run, leaves the lock covered exactly when the lock does not name it |
| `Handoff.SupervisorGivesUpEarly` | internal/apecmd/detach.go:758-779 | a supervisor that returns early once the launcher has retargeted: the lock names a dead process, released by nobody |
| `Handoff.LauncherKilledExactly` | internal/apecmd/detach.go:296-309 | killing the launcher before it retargets leaves it covered exactly when the run has taken over |
| `Handoff.RecordPidFailureUncovers` | internal/apecmd/detach.go:241-245 | a failed pid record gives the lock up while the supervisor lives |
| `Handoff.KilledSupervisorLetsAnotherIn` | internal/apecmd/nesting.go:464-466 | the schedule on which another session is granted the lock beside a live run |
| `Handoff.LateWriteRevivesLock` | internal/apecmd/nesting.go:475-487 | the history from the start on which the launcher's late write brings the lock back, with a live supervisor, after the exit was recorded |
| `HandleFile.HandleStore.UpdateHandle` | internal/apecmd/detach.go:162-169 | applies the change to the handle as it is stored now; a missing one is not made up |
| `HandleFile.ChangeExactly` | internal/apecmd/detach.go:173-188 | what each update writes in each field, and that it leaves the others; a note under another id changes nothing |
| `HandleFile.HandleHasTheLastValues` | internal/apecmd/detach.go:892-932 | over every history of updates, each field has the last value recorded in it: child pid, exit, run directory, hold, stop reason |
| `HandleFile.WritersCommute` | internal/apecmd/detach.go:173-188 | updates of two different processes commute |
| `HandleFile.Serialize` | internal/apecmd/detach.go:151-188 | every interleaving equals the launcher's updates, then the supervisor's, then the run's |
| `HandleFile.HandleConverges` | internal/apecmd/detach.go:151-188 | so any two interleavings of the same processes' updates end in the same handle |
| `HandleFile.NothingIsUnset` | internal/apecmd/detach.go:173-188 | a recorded supervisor pid or exit is never taken back, and each is there once its update is |
| `HandleFile.ExitReadLast` | internal/apecmd/detach.go:923-932 | with read and write apart, a recordExit that reads after all other writes leaves both pids and the exit set and loses nothing |
| `HandleFile.ExitSurvivesExactly` | internal/apecmd/detach.go:892-932 | a recorded exit survives a schedule exactly when no writer saves a copy read before it |
| `HandleFile.PidSurvivesExactly` | internal/apecmd/detach.go:151-188 | a recorded supervisor pid survives exactly when no writer saves a copy read before it, unless its update records the pid |
| `HandleFile.RunNoteErasesPid` | internal/apecmd/detach.go:895-905 | the schedule on which the run's note of its directory returns the pid to 0 |
| `HandleFile.EarlierCopyErasesExit` | internal/apecmd/detach.go:162-182 | the schedule on which the launcher's earlier copy erases the exit and the child's pid |
| `Waiting.SupervisorLost` | internal/apecmd/detach_probe.go:83-108 | lost exactly on two definite sightings and no exit in the freshest read; returns that read |
| `Waiting.LostExactly` | internal/apecmd/detach_probe.go:83-108 | lost exactly when the supervisor is on record, was seen not to be there twice, a marker counting once, and no handle read has an exit |
| `Waiting.LastReadExactly` | internal/apecmd/detach_probe.go:83-108 | the read returned has an exit exactly when one of the reads it made has |
| `Waiting.NoFalseLoss` | internal/apecmd/detach_probe.go:83-108 | on every timeline: lost implies no exit then or ever after, given one right look and a successful read after it |
| `Waiting.UnknownIsNoLoss` | internal/apecmd/detach_probe.go:88-101 | a look that cannot tell never gives a loss |
| `Waiting.LossNeedsARead` | internal/apecmd/detach_probe.go:102-107 | without a successful read after the look there is a timeline with a false loss |
| `Waiting.NoExitEver` | internal/apecmd/detach_probe.go:68-82 | a supervisor seen ended and no exit in a later read: there is none at any time |
| `Waiting.WaitDetached` | internal/apecmd/detach.go:405-464 | the loop's verdict and the turns it took, on any timeline |
| `Waiting.WaitEndsExactly` | internal/apecmd/detach.go:405-464 | the wait ends at the first turn that fails to read, reads an exit, finds a loss, or is past its deadline or cancelled with no exit in the last read, and with that turn's verdict; with no such turn it goes on |
| `Waiting.VerdictIsRight` | internal/apecmd/detach.go:405-464 | a run's code only as recorded at the last read, 76 only on a loss, 75 only with no exit at the last turn's read nor at its loss check's, no loss, and the time up |
| `Waiting.LostIsForEver` | internal/apecmd/detach.go:433-445 | a wait that returns 76, with right looks and reads, is for a run that never has an exit |
| `Waiting.ContinueReturns` | internal/apecmd/detach.go:431-432 | each continue is followed by a return at the next turn: the run's code, if the handle can be read |
| `Waiting.VerdictIsStable` | internal/apecmd/detach.go:405-464 | once a wait returns a run's code every later wait returns it; after a loss none does |
| `Waiting.WholeUpdatesArePossible` | internal/apecmd/detach.go:162-169 | with whole updates every history of handle writes gives a timeline of that kind |
| `Waiting.SplitUpdatesPossibleExactly` | internal/apecmd/detach.go:162-169 | with reads and saves apart a history does exactly when no writer saves a copy from before the recorded exit |
| `Waiting.SettledExactly` | internal/apecmd/detach.go:405-464 | and exactly then are verdicts stable for all waits that follow one another |
| `Waiting.StaleSaveUnsettles` | internal/apecmd/detach.go:162-169 | every such save makes a wait just after it disagree with one just before |
| `Waiting.ErasedExitIsForgotten` | internal/apecmd/detach.go:162-182 | the history on which one wait returns the run's code and the next, every look and read right, returns 76 |
| `NestingRule.BeliefIsTrue` | internal/apecmd/nesting.go:95-170 | a command that may start a child names a depth-1 loop run that exists, and the session it really runs in when it is in one, whatever its environment says |
| `NestingRule.AncestorExactly` | internal/apecmd/nesting.go:142-161 | the ancestry's answer is a row of the nearest ancestor that any row names by its ape's or its claude's pid, and none exactly when no ancestor is named |
| `NestingRule.CurrentSessionExactly` | internal/apecmd/nesting.go:95-122 | where a command is found to be, from the nearest named ancestor, the marker, the rows and the manifests |
| `NestingRule.EnvExactly` | internal/apecmd/nesting.go:128-142 | how a marker and a depth are read, a worker's marker as its session's |
| `NestingRule.GateExactly` | internal/apexv1/nesting.go:87-108 | outside anything starts; in a depth-1 loop run a child of an allow-listed skill; otherwise nothing |
| `NestingRule.ServiceEnvNamesRun` | internal/apecmd/service_submit.go:84-87 | the marker the daemon hands a job is read back as the submitting run |
| `NestingRule.ServiceJobIsAChild` | internal/apecmd/service_submit.go:55-87 | an admitted job of a depth-1 caller starts at depth 2 as that loop run's child, of an allow-listed skill |
| `NestingRule.ServiceJobExactly` | internal/service/depth.go:73-110 | what the daemon answers to each stamp, and with which refusal |
| `NestingRule.AdmittedExactly` | internal/apecmd/task.go:446-466 | a detached launch needs both gates, and the run's own gives the answer |
| `NestingRule.LaunchKeepsRuleExactly` | internal/apecmd/nesting.go:236-274 | an admitted launch keeps the rule exactly when, detached from inside a session, it has that session's marker, which is all the run's own gate has |
| `NestingRule.PlaceIsRight` | internal/apecmd/nesting.go:236-274 | a launch, direct, detached or through the service, is placed at depth 1 outside every session or at depth 2 under the depth-1 loop run it is inside |
| `NestingRule.ScrubbedDetachLosesParent` | internal/apecmd/task.go:446-466 | a loop's detached child with the marker scrubbed is gated at depth 2 by the command and recorded at depth 1, without a parent, by its run |
| `NestingRule.DepthIsAtMostTwo` | internal/apecmd/nesting.go:35-38 | over every sequence of such launches no session is deeper than two, in the records or in fact, and a depth-2 session's parent is a depth-1 loop run |
| `NestingRule.LoopInAllowListBreaksRule` | internal/apexv1/nesting.go:87-108 | with the loop skill on the allow-list a depth-2 session gets a depth-2 parent |
| `LiveSessions.OccurKeepsSound` | internal/apecmd/nesting.go:341-363 | launches, ends and lock steps together keep the rule, the locks' invariant and one token per live session |
| `LiveSessions.LaunchTakesThem` | internal/apecmd/nesting.go:341-363 | the locks a session is said to need are exactly those its launch takes |
| `LiveSessions.AllHoldExactly` | internal/apecmd/nesting.go:341-363 | an event leaves every live session with the locks it needs exactly when it loses none: no release under a live session, no retarget to a dead process, no death of the recorded process before the session's own |
| `LiveSessions.LiveSessionsHoldTheirLocks` | internal/apecmd/nesting.go:341-363 | over every interleaving the live sessions hold their locks at every state exactly when none is lost under one |
| `LiveSessions.OneLoopOneChild` | internal/apecmd/nesting.go:341-363 | and then a project has at most one live loop and a loop run at most one live child, live by their own processes |
| `LiveSessions.LossLetsAnotherIn` | internal/apecmd/nesting.go:464-466 | every loss of a lock under a live session can be followed by a second live session that needs the same lock |
| `LiveSessions.TwoLiveLoops` | internal/apecmd/nesting.go:475-487 | from nothing: a detached loop run whose supervisor dies, and a second live loop beside it |
| `CommitShare.OtherRunWindows` | internal/apecmd/commitshare.go:129-170 | exactly the unrelated runs of the checkout: each live row, each finished run once, nothing else |
| `CommitShare.SplitSharedCommits` | internal/apecmd/commitshare.go:103-124 | claimed and shared merge back into the commits in order, shared exactly where another run's window holds the commit |
| `CommitShare.SplitIsPartition` | internal/apecmd/commitshare.go:103-124 | nothing is lost or made up, and each side comes only from commits of its kind |
| `CommitShare.WindowHolds` | internal/apecmd/commitshare.go:89-97 | a window holds a commit from the second the run started to the second after it ended, none made a second before or two seconds after |
| `CommitShare.OverlapIsShared` | internal/apecmd/commitshare.go:91-99 | a commit made while an unrelated run was going is shared, whichever ends first, despite whole seconds |
| `CommitShare.NeverClaimedByBoth` | internal/apecmd/commitshare.go:91-191 | so a commit made while either run was going is never claimed by both, when a run that was going can be seen by the other: by its manifest, or by its row still there |
| `CommitShare.GoneWithoutManifestIsClaimed` | internal/apecmd/commitshare.go:150-170 | a run with no manifest that is gone is not seen, and its commit is claimed |
| `CommitShare.KinAreNotOthers` | internal/apecmd/commitshare.go:129-132 | the run itself, its parent and its children are never among the others |
| `CommitShare.OnlyKinIsClaimed` | internal/apecmd/commitshare.go:91-132 | a commit made while only those were on record as going is claimed |
| `CommitShare.StrangersRowIsShared` | internal/apecmd/commitshare.go:139-148 | a live row of another run in the checkout makes it shared |
| `CommitShare.StrangersManifestIsListed` | internal/apecmd/commitshare.go:149-168 | a finished pipeline or task run that is not kin is among the others |
| `Porcelain.ParsePorcelain` | internal/apecmd/framework_release.go:734-755 | the loop over the fields computes their reading |
| `Porcelain.ParseUndoesPrint` | internal/apecmd/framework_release.go:734-755 | every printed list of entries comes back in order with the right flags, a source path that looks like an entry included |
| `Porcelain.ParseExactly` | internal/apecmd/framework_release.go:749-752 | for every printed list, the entries come back exactly when each source path of a work-tree rename longer than three characters stands for the next entry, through the chain of entries swallowed |
| `Porcelain.ReadsAtLeast` | internal/apecmd/framework_release.go:734-755 | a list is never read short |
| `Porcelain.MisreadsAddUp` | internal/apecmd/framework_release.go:749-752 | where no misread source path starts like a rename itself, each misread rename adds one entry |
| `Porcelain.SwallowedEntryHidesMisread` | internal/apecmd/framework_release.go:749-752 | a source path that reads as a rename swallows the next entry and may stand for it |
| `InstallRevert.Repository.CommitPrecheck` | internal/apecmd/framework_release.go:503-534 | which answer each case gets: no repository, no branch, a dirty tree with every path that differs, or a pass with the untracked files git shows |
| `InstallRevert.FoldersExactly` | internal/apecmd/framework_release.go:580-585 | the folders meant: the board's, ape's state, .claude/ and the installed skills |
| `InstallRevert.Repository.CommitInstall` | internal/apecmd/framework_release.go:540-579 | commits exactly the changed and the new paths outside ape's state; a commit not accepted leaves them staged |
| `InstallRevert.Repository.ApplyClaudeIgnore` | internal/apecmd/framework.go:1057-1071 | writes the root .gitignore, and adds to the earlier files every file under .claude/ this shows to git, the installed skills aside |
| `InstallRevert.Repository.RevertInstall` | internal/apecmd/framework_release.go:595-622 | index back to HEAD; then, unless HEAD holds nothing and the checkout fails, tracked files back to HEAD, new files gone, the created board removed |
| `InstallRevert.Repository.RemoveCreatedBoard` | internal/apecmd/framework_release.go:629-681 | the whole folder when nothing there is tracked, else its files neither tracked nor shown before |
| `InstallRevert.RevertRestoresExactly` | internal/apecmd/framework_release.go:586-622 | after any permitted install, .gitignore files included, what the revert leaves is HEAD's content plus the earlier untracked files exactly when git shows at the revert's look every file added and no earlier file it ignored, and the board's removal reaches none; with nothing in HEAD, when nothing was added |
| `InstallRevert.RevertPutsBack` | internal/apecmd/framework_release.go:586-622 | an install that made no commit is undone file for file under the same condition |
| `InstallRevert.UnbornBranchKeepsInstall` | internal/apecmd/framework_release.go:595-601 | on a branch with no commit yet a revert leaves the file an install added |
| `InstallRevert.NewRulesKeepInstall` | internal/apecmd/framework_release.go:602-614 | a new .gitignore hides a new file from the revert, which leaves it |
| `InstallRevert.OldRulesKeepInstall` | internal/apecmd/framework_release.go:599-614 | the checkout puts an old .gitignore back over files installed where it ignores them, and the revert leaves those |
| `InstallRevert.CommitTakesExactly` | internal/apecmd/framework_release.go:536-579 | after any permitted install the commit leaves a clean tree and the earlier files as they were; it takes none of those exactly when each is among the earlier ones known or still ignored, and takes the install whole exactly when git shows what it added |
| `InstallRevert.RevealedFileIsCommitted` | internal/apecmd/framework_release.go:547-560 | a .gitignore edit that shows a person's file gets it committed, unless it has joined the earlier files |
| `InstallRevert.ClaudeIgnoreExactly` | internal/apecmd/framework.go:1050-1071 | with the files the rewrite reveals joined, the commit takes nothing of the person's exactly when none of their ignored files has an installed skill's name and is revealed |
| `InstallRevert.InstallKeeps` | internal/apecmd/framework_release.go:503-534 | what every permitted operation keeps |
| `Fences.FenceMarkerExactly` | scripts/check-docs-links.py:47-61 | a line is a marker exactly when it has a fence's form |
| `Fences.FenceIsRead` | scripts/check-docs-links.py:47-61 | with the right character and length, and an empty info string exactly when only white space follows |
| `Fences.QuoteEndExactly` | scripts/check-docs-links.py:34 | a block-quote marker is at most three spaces, `>`, and one space if there is one |
| `Fences.QuotesExactly` | scripts/check-docs-links.py:64-72 | a line's depth is the number of markers it begins with, and its rest what follows the last |
| `Fences.Unquote` | scripts/check-docs-links.py:64-72 | the number of block-quote markers, and what follows them |
| `Fences.FenceIsOpen` | scripts/check-docs-links.py:75-100 | the fence held before a line is that of an opener nothing has ended, and there is one whenever such an opener is |
| `Fences.HiddenExactly` | scripts/check-docs-links.py:75-100 | a line is hidden exactly when it opens a fence or an opener above covers it: every line since at least as deep, no closer strictly between |
| `Fences.FenceEndsWithQuote` | scripts/check-docs-links.py:78-93 | a fence never outlives its block quote: once a line is shallower than the fence held, every fence held later was opened there or after |
| `Fences.RunsAreTheVisibleLines` | scripts/check-docs-links.py:75-103 | every line not hidden is in the runs once, in order, and nothing else is |
| `Fences.RunsEndAtFences` | scripts/check-docs-links.py:94-99 | a run is what is visible between two openings of fences |
| `Fences.Feed` | scripts/check-docs-links.py:84-100 | one line's effect on the open fence and the groups |
| `Fences.GroupLines` | scripts/check-docs-links.py:82-100 | the loop over the lines leaves exactly those groups |
| `Fences.ProseRuns` | scripts/check-docs-links.py:75-103 | the runs of a text are those groups of its lines, joined by newlines |
| `Fences.RunsReadBack` | scripts/check-docs-links.py:94-103 | splitting a run at its line ends gives its lines back |
| `CodeSpans.FindBlankLine` | scripts/check-docs-links.py:128-130 | the first blank line at or after the start |
| `CodeSpans.ClosingRun` | scripts/check-docs-links.py:126-140 | the scan's first closer |
| `CodeSpans.FindIsFirst` | scripts/check-docs-links.py:126-140 | which is the first whole run of exactly n backticks before a blank line, or there is none |
| `CodeSpans.NextPiece` | scripts/check-docs-links.py:111-122 | what one turn of the loop shows, and where the mask goes on |
| `CodeSpans.MaskCodeSpans` | scripts/check-docs-links.py:106-123 | the loop computes the mask |
| `CodeSpans.EveryTextSplits` | scripts/check-docs-links.py:106-123 | every text splits into literal characters, unclosed runs and spans closed by their first closer |
| `CodeSpans.SplitIsUnique` | scripts/check-docs-links.py:106-123 | in one way only |
| `CodeSpans.MaskIsTheOnlyReading` | scripts/check-docs-links.py:106-123 | the mask shows that split: all outside spans in order, one mark for each span |
| `CodeSpans.MaskMakesNoCloser` | scripts/check-docs-links.py:126-140 | masking turns no unclosed run into a closed one |
| `CodeSpans.MaskTwice` | scripts/check-docs-links.py:106-123 | masking twice equals masking once |
| `LinkGraph.Visit` | scripts/check-docs-links.py:189-196 | one page's new pages, each once, and its dead links in order |
| `LinkGraph.Search` | scripts/check-docs-links.py:184-196 | ends on every link graph, finds exactly what walks from the root reach, and reports each page's dead links as often as it holds them |
| `LinkGraph.TurnKeeps` | scripts/check-docs-links.py:187-196 | what every turn of the search keeps |
| `LinkGraph.ClosedHoldsAll` | scripts/check-docs-links.py:184-196 | a set closed under links holds all that is reached |
| `LinkGraph.ScanRest` | scripts/check-docs-links.py:198-206 | a dead link the search did not report is reported once |
| `LinkGraph.CheckDocs` | scripts/check-docs-links.py:171-229 | orphans are exactly the pages not reached, dead links exactly the missing targets of pages in the tree or reached, and the exit code says which |
| `HookFold.InteractiveCore.constructor` | internal/apecmd/pipeline_interactive.go:157-180 | starts with no step, transcript, capture or baseline |
| `HookFold.InteractiveCore.FeedHook` | internal/apecmd/pipeline_interactive.go:308-418 | one hook's effect on the whole state |
| `HookFold.InteractiveCore.CaptureSubagent` | internal/apecmd/pipeline_interactive.go:346-380 | a sub-agent hook's effect |
| `HookFold.InteractiveCore.OnStepStart` | internal/apecmd/pipeline_interactive.go:481-553 | a new step's label and no captures |
| `HookFold.InteractiveCore.OnStepEnd` | internal/apecmd/pipeline_interactive.go:572-578 | no active step, all else kept |
| `HookFold.InteractiveCore.ResetStageTelemetry` | internal/apecmd/pipeline_interactive.go:584-596 | everything but the active step cleared |
| `HookFold.InteractiveCore.StepTelemetry` | internal/apecmd/pipeline_interactive.go:621-671 | the main session's delta, and the baseline advanced on a successful scan only |
| `HookFold.MainTranscript` | internal/apecmd/pipeline_interactive.go:327-418 | for every sequence of events: the last transcript a prompt named within a step, else the first one a Stop or other main event carried, else none |
| `HookFold.OnlyPromptsReplace` | internal/apecmd/pipeline_interactive.go:381-418 | a known transcript is replaced only by a prompt within a step |
| `HookFold.PromptOutsideStepIsIgnored` | internal/apecmd/pipeline_interactive.go:327-345 | prompts outside a step set no transcript |
| `HookFold.MainSession` | internal/apecmd/pipeline_interactive.go:327-418 | the session id is that of the last event to set the transcript and carry one |
| `HookFold.SubIsLastCapture` | internal/apecmd/pipeline_interactive.go:346-380 | a sub-agent is on record exactly when this step captured it, with the last path captured |
| `HookFold.SubParent` | internal/apecmd/pipeline_interactive.go:346-380 | and with the last parent session a capture of this step carried |
| `HookFold.StageChargesTelescope` | internal/apecmd/pipeline_interactive.go:621-671 | over a whole stage the main deltas add up to the transcripts' last totals, plus what returns count twice, which is nothing when there is none |
| `StageUsage.MinusIsFieldwise` | internal/sessiondriver/scan.go:351-363 | subtraction takes each of the eight fields from itself |
| `StageUsage.ChargesTelescope` | internal/sessiondriver/scan.go:135-182 | the charges are each transcript's last total counted once, and the total it was left at again for each return |
| `StageUsage.NeverReturnsChargesOnce` | internal/sessiondriver/scan.go:141-148 | without returns, exactly the transcripts' totals |
| `StageUsage.ChargedOnceExactly` | internal/sessiondriver/scan.go:141-148 | where every scan finds something in a field, exactly when no scan goes back to a transcript left before |
| `StageUsage.ReturnIsChargedTwice` | internal/sessiondriver/scan.go:141-148 | a step on one transcript, one on another and one on the first again |
| `StageUsage.BaselineIsLast` | internal/apecmd/pipeline_interactive.go:661-668 | the baseline is the last successful scan's; a failed one leaves it |
| `Credentials.CredentialHost.PublishCredential` | internal/apecmd/sandbox_credentials.go:513-557 | the old publication goes, a link or copy is made, granted, and marked only once granted |
| `Credentials.PublishedIsTheSource` | internal/apecmd/sandbox_credentials.go:535-556 | a publish that puts something there publishes the source's content as it is, in the source's own file for a link and in a new one for a copy |
| `Credentials.CredentialHost.GrantDaemonAccess` | internal/apecmd/sandbox_credentials.go:571-586 | the grant is put on the inode |
| `Credentials.CredentialHost.RepairCredentialPublication` | internal/apecmd/sandbox_credentials.go:689-726 | repaired exactly when a marked link had decoupled and was remade; an error exactly when a marked link has no source to follow or a step of the repair fails |
| `Credentials.CredentialHost.RevokeCredential` | internal/apecmd/sandbox_credentials.go:438-452 | the grant on the published inode, the name and the marker go |
| `Credentials.CredentialHost.CredentialStatus` | internal/apecmd/sandbox_credentials.go:781-826 | present, mode, live and granted as the inodes and the marker say |
| `Credentials.StatusIsRight` | internal/apecmd/sandbox_credentials.go:781-826 | over every run with working grants, status reports what is published and how, and live exactly when the inodes match |
| `Credentials.CopyIsApart` | internal/apecmd/sandbox_credentials.go:535-543 | over every run, whatever fails, a copy never shares the source's inode |
| `Credentials.CopyIsolates` | internal/apecmd/sandbox_credentials.go:535-543 | so what a workspace writes to a copy leaves the operator's credential alone |
| `Credentials.PublishedHolds` | internal/apecmd/sandbox_credentials.go:513-557 | over every run the published file holds the source's content when last published, changed only by writes to it; a live link always holds the source's |
| `Credentials.SourceChangesOnlyByWrites` | internal/apecmd/sandbox_credentials.go:513-557 | no publish, repair or revoke changes the source's content |
| `Credentials.MarkerIsRight` | internal/apecmd/sandbox_credentials.go:656-664 | with working grants the marker is what was published, and the daemon can reach it |
| `Credentials.ModeIsRightExactly` | internal/apecmd/sandbox_credentials.go:781-826 | over every run, whatever fails, the mode reported is the one published exactly when the link is live, the last mode marked is the one published, or with none marked the link count tells |
| `Credentials.LastGrantIsEnough` | internal/apecmd/sandbox_credentials.go:535-556 | so the mode is right whenever the grant of the last operation to publish worked |
| `Credentials.FailedGrantMislabels` | internal/apecmd/sandbox_credentials.go:549-553 | a link whose grant failed over an earlier copy is reported as a copy after a login, and never repaired |
| `Credentials.RepairSettles` | internal/apecmd/sandbox_credentials.go:711-725 | repair makes a link live and granted, keeps the source's content, and is then a no-op |
| `Credentials.RepairOnlyRelinks` | internal/apecmd/sandbox_credentials.go:683-703 | it never creates a publication nor touches a copy; a link it cannot remake is gone |
| `Credentials.RepairKeepsCopies` | internal/apecmd/sandbox_credentials.go:683-703 | over every run with working grants it leaves standing copies and absent publications as they are |
| `Credentials.RepairFollowsLogin` | internal/apecmd/sandbox_credentials.go:675-689 | after a login a standing link is stale and repair publishes the new credential |
| `Credentials.RevokeKeepsSource` | internal/apecmd/sandbox_credentials.go:438-452 | the source's content never changes; the source stays granted exactly when it was and was not the published file |
| `Credentials.GrantFollowsLink` | internal/apecmd/sandbox_credentials.go:438-452 | over every run with working grants the operator's own file is granted exactly while it is the published one, or after a live link to it was abandoned |
| `Credentials.AbandonedGrantStays` | internal/apecmd/sandbox_credentials.go:529-543 | a live link replaced by a copy leaves the source granted, a later revoke included |
| `CapUtf8.Cap` | internal/apecmd/detach.go:581-590 | a prefix of at most n bytes, flagged exactly when cut; of valid text the longest valid prefix that fits, at most three bytes short of n |
| `CapUtf8.CutAtStart` | internal/apecmd/detach.go:585-588 | valid text may be cut before any byte that may begin a character |
| `CapUtf8.CutsAreStarts` | internal/apecmd/detach.go:585-588 | and only there |
| `CapUtf8.StartIsNear` | internal/apecmd/detach.go:585-588 | such a byte is at most three bytes back |
| `CapUtf8.EncodedIsChar` | internal/apecmd/detach.go:580-590 | a character, as the cut takes it, is every encoding of a Unicode scalar value |
| `CapUtf8.CharIsEncoded` | internal/apecmd/detach.go:580-590 | and nothing else |

## Left out

- Spawning claude, the PTY, the bridge, NATS and the service daemon's queue: foreign processes.
- Errors of the file system while a lock, handle or marker is written, and the temporary files such a write goes through: writes are whole.
- In the hand-off, the steps of other sessions and the releases are whole; what tearing those does is in `SessionLocks`.
- `lookTwice` and `ape run stop`: the wait has its own two looks, which are modelled.
- How a probe finds a process (`ps`, `/proc`, Windows calls): a probe is its answer, and process identities are not reused.
- A service job that is a script: the daemon refuses one from depth 1 before it looks at the run.
- The relay of a spent loop run (`relayGate`) and the carry of `--usage-ok` to children: neither changes depth, parent or locks.
- Sessions whose environment and ancestry are both removed: the code documents these as out of the rule's reach (internal/apecmd/nesting.go:63-68).
- The run's own record on the handle is the run directory alone; the run id, which is read off it, is not kept beside it.
- `markParentGone`, the supervisor's stop of a run whose parent is gone, beyond its write to the handle.
- An untracked .gitignore of the person's that the rewrite edits, and ignore rules outside the work tree that change meanwhile: earlier untracked files are untouched, and the rules are a function of the work tree.
- Directories in the work tree, `pruneEmptyDirs`, path conflicts between files and folders, and the message of the install commit.
- git's rename detection: the repository model lists changed paths, the parser model takes any printed entries.
- Finding the links in a run of prose, resolving a target and spelling paths (`extract_links`, `resolve`): the link graph is given. With the root given as `.`, the root page and the tree's README.md are spelled differently there. A link whose target is white space only stops `extract_links` with an error.
- Per-model usage, context windows, sub-agent totals and the sweep for dropped sub-agents in `ScanStep`: only the main session's delta is modelled.
- A `--source` that differs between credential commands, a copy that fails half-way, and other names of the published inode: one source file, whole copies; the link count is a parameter of the status.
- `doctor`, `costs`, `config`, `effort`, the remaining `sandbox_*` commands, rendering and flag parsing: easy members or thin wrappers.
