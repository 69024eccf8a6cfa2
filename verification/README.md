# Verified models of installd and dumpstate

This project models the parts of Android's native daemons whose correctness cannot be read off one
function, and proves what they keep over every input and every run.

- **Cache eviction** (installd). `CacheTracker` turns the depth-first entries of `fts(3)` into
  purgeable items, collapses "group" directories, passes modification times upward, sorts, and
  `freeCache` bounces across the trackers, purging from whichever app is most over its quota.
  `Fts.dfy` and `Trails.dfy` hold the file hierarchy and the walk; `CacheItems.dfy` the event loop
  against a recursive definition; `CacheOrder.dfy` the order; `CacheCoverage.dfy` that
  nothing is left out; `CacheTracker.dfy` the object;
  `Eviction.dfy` the scheduler and `EvictionCases.dfy` what its rules
  amount to; `Purging.dfy` the calls made for an item and `PurgeEffects.dfy` what they
  leave behind.
- **GID repair** (installd). `Fixup.dfy` is `fixupAppData`: a walk with inherited expectations and
  subtree skipping, against a recursive definition, and the hierarchy it leaves behind; `FixupOutcome.dfy`
  says what that is for every file, in terms of names, inodes, owners and groups.
- **The extension matcher** (installd). `Matchgen.dfy` is the generator `matchgen.py`: table to trie
  to nested `switch` statements, with the fall-through and break semantics of C.
- **OTA artifacts** (installd and otapreopt). `OtaPaths.dfy` relates the two independent name
  computations, `MoveAb.dfy` is the promotion of B files to A, `OtaParameters.dfy` the versioned
  command line and `OtaFields.dfy` what each of its words ends up as.
- **The parallel bugreport** (dumpstate). `DumpPool.dfy` is the worker pool as a state machine whose
  steps are critical sections, or actions between them, of one thread; `DumpPoolSafety.dfy`,
  `DumpPoolReport.dfy` and `DumpPoolRuns.dfy` prove what all interleavings keep. `TaskQueue.dfy` is the
  queue of zip entries, run and cancelled from several threads. `Consent.dfy` is the consent callback
  racing the main thread.

The file system, the kernel's answers (free space, failing calls), the number of spurious wakeups, and
the choice of which thread moves next are arbitrary parameters everywhere.

## Where the code does not do what one might expect

Each of these has a theorem with the exact condition, and most have an input or run that shows it:

- A 64-bit ratio is returned as an `int`. An app is at or over its quota exactly if the quotient is 10000
  or more, and looks so exactly if the low 32 bits of the quotient are
  (`CacheTracking.RatioMeansOverQuota`). The two differ both ways (`CacheTracking.RatioWraps`).
- The sort's comparator puts two directories with equal time and level each before the other
  (`CacheItems.ComparatorDefect`). The model sorts by the order it is meant to be.
- Eviction that stops at an app under its quota leaves another one over its own exactly if the last purge
  was the one that took the first app under, while the other was over (`Eviction.Bounce`, through
  `StopMeans`; `EvictionCases.StopsEarly`).
- A marked symbolic link or special file is truncated when purged on its own and unlinked when purged
  with its directory (`Purging.RoutesPart`, `Purging.MarkedLink`).
- Purging a directory reports a failure exactly if a marked regular file lies below it, because the
  directories above such a file cannot be removed (`PurgeEffects.PurgeLeaves`).
- A forced GID repair can find work that an ordinary one left (`Fixup.ForcedAfterOrdinary`,
  `Fixup.ForcedRepairsMore`).
- The generated matcher is right for every string exactly if no word has two types; otherwise the last
  row wins (`Matchgen.Generate`), and no program could be right (`Matchgen.AnswersNeedOneType`).
- otapreopt and installd disagree about the artifact names exactly for the slots "dex" and "odex…"
  and for names that do not fit the buffer, which only installd checks (`OtaPaths.NamesAgree`,
  `OtaPaths.DexSlotDiffers`).
- A regular B artifact that is not moved survives `move_ab` exactly if `unlink` fails on it, or `stat` does
  when its turn to be moved comes; an old A image survives exactly if it is not replaced and `unlink`
  fails on it (`MoveAb.PlainPromotion`, `MoveAb.StatFails`).
- A bugreport run can return OK without copying the report, after approval or denial, exactly if the
  wait for an answer had expired (`Consent.StatusMeans`, `Consent.OkAfterDenial`); and after a timeout an
  early screenshot is still passed on by a late approval (`Consent.ScreenshotAfterTimeout`).
- Version 1 of the otapreopt command line accepts "&" as shared libraries, version 2 does not
  (`OtaParameters.Version1IsVersion2`, `OtaParameters.AmpersandDiffers`).

## Model

| member | source | states |
|---|---|---|
| CacheItems.LoadRoot | cmds/installd/CacheTracker.cpp:97-162 | for every tree the event loop, with null pointers in all entries at the start, never dereferences a missing item, never runs out of entries inside a group, and appends exactly the items of the recursive definition |
| CacheItems.LoadNode | cmds/installd/CacheTracker.cpp:105-160 | the same for one subtree found anywhere: its items are appended, the parent's item gets the subtree's newest time, no pointer at or above the parent changes |
| CacheItems.LoadGroup | cmds/installd/CacheTracker.cpp:127-141 | a group directory becomes one item holding the blocks and the newest time of everything under it |
| CacheItems.CollectNode | cmds/installd/CacheTracker.cpp:129-140 | while a group is collected, every subtree, nested directories and nested groups included, only adds its blocks and newest time to the group's item |
| CacheItems.SizesConserved | cmds/installd/CacheTracker.cpp:115-141 | item sizes sum to 512 times the blocks of every node below the root: collapsing groups loses nothing and counts nothing twice |
| CacheItems.NewestIsMaximum | cmds/installd/CacheTracker.cpp:145-159 | the time a directory item ends up with is at least that of every node in its subtree and is the time of one of them |
| CacheItems.AncestorsFirst | cmds/installd/CacheTracker.cpp:145-185 | in every subtree, for all modification times, an item for a directory precedes every item beneath it in the sort order |
| CacheItems.ComparatorDefect | cmds/installd/CacheTracker.cpp:175-185 | the comparator differs from the intended order, and is asymmetric no longer, exactly for two directories of equal time and level |
| CacheOrder.StableSortSorts | cmds/installd/CacheTracker.cpp:186 | the sort yields an ordered permutation in which items that compare equal keep their order |
| CacheOrder.AncestorsBefore | cmds/installd/CacheTracker.cpp:164-185 | the same precedence over the items of all cache directories of an app |
| CacheOrder.PurgeOrder | cmds/installd/CacheTracker.cpp:164-188 | any ordered permutation of an app's items, popped from the back, gives oldest first and no directory before something beneath it; of items equally old the deepest first, and of those at one depth directories last |
| CacheCoverage.EverythingOffered | cmds/installd/CacheTracker.cpp:164-188 | for every cache directory of the app and everything in it that no group hides, there is an item among those offered, with its own path, depth, size and mark and the newest time below it |
| CacheCoverage.AllBytesOffered | cmds/installd/CacheTracker.cpp:164-188 | the sizes of the items offered sum to 512 times the blocks of all nodes below all cache directories |
| CacheTracking.CacheTracker.constructor | cmds/installd/CacheTracker.cpp:36-43 | a new tracker uses nothing, has no quota and no items, and has not loaded them |
| CacheTracking.CacheTracker.LoadStats | cmds/installd/CacheTracker.cpp:57-74 | usage becomes what the quotas account for if both accounts are known, and else the sizes of all cache directories; no part of a failed quota query is left in it |
| CacheTracking.CacheTracker.LoadQuotaStats | cmds/installd/CacheTracker.cpp:76-95 | whether both accounts are known, and their sum added to the usage if so |
| CacheTracking.MeasuredMeans | cmds/installd/CacheTracker.cpp:57-95 | both quota accounts together if neither is in error; otherwise the sizes of both cache directories of every data path, added up |
| CacheTracking.BothOfEach | cmds/installd/CacheTracker.cpp:168-171 | for every data path both the cache and the code cache directory are among those loaded, and no others |
| CacheTracking.CacheTracker.LoadItemsFrom | cmds/installd/CacheTracker.cpp:97-162 | the nested loops append to the items exactly those of the recursive definition |
| CacheTracking.CacheTracker.CollectGroup | cmds/installd/CacheTracker.cpp:127-141 | the inner loop ends at the second entry of the group directory itself, having done to the group's item what the event semantics says |
| CacheTracking.CacheTracker.BubbleUp | cmds/installd/CacheTracker.cpp:145-159 | the parent's item, if there is one, gets the later of the two times and nothing else changes |
| CacheTracking.CacheTracker.SortItems | cmds/installd/CacheTracker.cpp:174-187 | the items become their stable sort |
| CacheTracking.CacheTracker.LoadItems | cmds/installd/CacheTracker.cpp:164-188 | the items become the sorted items of both cache directories of every data path, whatever they were |
| CacheTracking.CacheTracker.EnsureItems | cmds/installd/CacheTracker.cpp:190-197 | loading is lazy and happens once: what the tracker can offer is the same before and after |
| CacheTracking.RatioMeansOverQuota | cmds/installd/CacheTracker.cpp:199-205 | for every usage and positive quota: being at or over the quota is a quotient of 10000 or more, the ratio is 10000 or more exactly if the low 32 bits of the quotient say so, and the two agree while usage is within 214748 quotas either way |
| CacheTracking.RatioOrder | cmds/installd/CacheTracker.cpp:199-205 | while ratios fit an int, an app using at least as large a share of its quota as another has at least as large a ratio |
| CacheTracking.RatioWraps | cmds/installd/CacheTracker.cpp:199-205 | with the default quota an app at 214749 times its quota has a negative ratio, and an app far below zero looks over its quota; without a quota the ratio is 0 |
| Eviction.Top | cmds/installd/InstalldNativeService.cpp:1422-1426 | the head of the queue is a tracker whose key is maximal |
| Eviction.Populate | cmds/installd/InstalldNativeService.cpp:1419-1432 | every tracker's usage is measured, nothing else about it changes, it is queued under its ratio, and the total is the sum of what all use |
| Eviction.Swap | cmds/installd/InstalldNativeService.cpp:1457-1466 | a swap puts the active tracker back under its present ratio, installs a maximal one with its items loaded, leaves nothing better queued, and purges nothing |
| Eviction.PurgeBack | cmds/installd/InstalldNativeService.cpp:1473-1482 | the last item leaves the active tracker, whose usage falls by its size; no other tracker changes |
| Eviction.TopDecides | cmds/installd/InstalldNativeService.cpp:1453-1457 | comparing with the head of the queue decides whether any queued tracker is more over its quota, because no queued key is out of date |
| Eviction.NextBetter | cmds/installd/InstalldNativeService.cpp:1453-1457 | the test for a swap holds exactly if there is no active tracker or some queued one is further over its quota |
| Eviction.PurgeOne | cmds/installd/InstalldNativeService.cpp:1473-1495 | one purge keeps everything the loop keeps, leaves one item fewer, and changes what is needed, and the number of free-space queries, as the accounting says |
| Eviction.LawfulGrows | cmds/installd/InstalldNativeService.cpp:1438-1483 | a purge that is allowed, recorded truly and does not follow one that took its app under quota extends a lawful log |
| Eviction.DemandMeans | cmds/installd/InstalldNativeService.cpp:1480-1495 | after any purges, what is needed is what the last free-space answer left to be freed less what was purged since, and the system was asked again exactly when a purge made up for all that was needed |
| Eviction.SwapKeeps | cmds/installd/InstalldNativeService.cpp:1457-1466 | a swap keeps everything the loop keeps and the number of items left |
| Eviction.PurgeKeeps | cmds/installd/InstalldNativeService.cpp:1469-1483 | a purge from a tracker that nothing queued exceeds keeps everything the loop keeps, and one item fewer is left |
| Eviction.Bounce | cmds/installd/InstalldNativeService.cpp:1419-1497 | for every set of trackers and every answer about usage and free space the loop ends; replaying its log from the measured trackers gives the final ones, and before each purge what the loop saw; usage plus cleared bytes is conserved; each tracker's purged items are exactly the tail of its items, last first, none twice; each purge happens with space needed, outside the reserve, from an app over quota unless defied, none queued is further over, and none follows one that took its app under quota; and what each reason for stopping means, with the exact condition under which a stop at an app under quota leaves another one over |
| Eviction.FreeCache | cmds/installd/InstalldNativeService.cpp:1343-1510 | the result for every case of free space and flags, the number of free-space queries, that nothing is touched unless space was short and the strategy supported, why the loop stopped, and the same conservation and policy over the whole call; files are purged for exactly the items of the log, or for none if the call is to be a no-op |
| Eviction.EvictionOrder | cmds/installd/InstalldNativeService.cpp:1473-1478 | across a whole eviction, the items purged from an app come oldest first, and no directory before an item beneath it; of items equally old the deepest first, and of those at one depth directories last |
| EvictionCases.PurgedIsOverQuota | cmds/installd/InstalldNativeService.cpp:1439-1445 | with positive quotas that are not to be defied, every app purged from uses at least its quota, provided its ratio fits an int |
| EvictionCases.OnlyEnd | cmds/installd/InstalldNativeService.cpp:1438-1466 | for two apps over their quota, the first of which one purge takes under, the only possible end is a stop at the first with the second still over |
| EvictionCases.StopsEarly | cmds/installd/InstalldNativeService.cpp:1438-1466 | such an eviction: it stops with the second app at more than five times its quota |
| Purging.Purge | cmds/installd/CacheItem.cpp:69-133 | the loop makes exactly the calls of the recursive definition, in that order; which paths exist afterwards, and -1 exactly if one of the calls fails, for whatever paths exist before and whichever calls fail for reasons of their own |
| Purging.BuildPath | cmds/installd/CacheItem.cpp:59-67 | the names collected going up the parents spell the path the entry was found at |
| Purging.TreeWalk | cmds/installd/CacheItem.cpp:79-118 | the marks passed down through the entries make the walk do what the recursive definition says |
| Purging.FateInTree | cmds/installd/CacheItem.cpp:81-110 | below a purged directory a file is truncated exactly if it is regular and marked from above, and unlinked exactly otherwise |
| Purging.ItemTracked | cmds/installd/CacheItem.cpp:33-50 | whatever no group hides is tracked, with its own path, depth and size and the newest time below it, and its item is marked exactly if a directory above it, or it itself, carries the tombstone attribute |
| Purging.RoutesAgree | cmds/installd/CacheItem.cpp:69-131 | a regular file is truncated rather than unlinked exactly if a directory above it and below the cache root is marked, whether purged on its own or with any tracked directory above it |
| Purging.RoutesPart | cmds/installd/CacheItem.cpp:103-130 | for links and special files the two routes do the same exactly if no directory above is marked |
| Purging.MarkedLink | cmds/installd/CacheItem.cpp:103-130 | a symbolic link in a marked directory, truncated one way and unlinked the other |
| PurgeEffects.PurgeLeaves | cmds/installd/CacheItem.cpp:72-118 | purging a directory whose calls do not fail for reasons of their own reports a failure if and only if a marked regular file lies below; what is left is exactly those files and the directories above them; nothing elsewhere is touched |
| PurgeEffects.ExecSubtree | cmds/installd/CacheItem.cpp:80-118 | the same for any subtree on the way: what exists after its calls, and whether one of them failed |
| PurgeEffects.StaysMeans | cmds/installd/CacheItem.cpp:81-116 | a node is left exactly if it is, or has below it, a regular file with the mark inherited or found on the way down |
| PurgeEffects.LeftMeans | cmds/installd/CacheItem.cpp:81-116 | the same for every node of a subtree, by the path to it |
| Fixup.FixupUser | cmds/installd/InstalldNativeService.cpp:805-884 | the loop, with its skipping and the numbers stored in entries, makes exactly the calls of the recursive definition |
| Fixup.ExpectationsSet | cmds/installd/InstalldNativeService.cpp:818-830 | every child of a package directory gets its expectation, and no other entry's number changes |
| Fixup.RunRoots | cmds/installd/InstalldNativeService.cpp:801-884 | the entry semantics equals the recursive definition for any list of data directories, starting from any numbers |
| Fixup.WhoIsRepaired | cmds/installd/InstalldNativeService.cpp:831-882 | a call is made for a node if and only if nothing above it makes the walk turn back, its GID is not the inherited one but belongs to the app, and the call is one its kind asks for |
| Fixup.WhoIsRepairedInRoot | cmds/installd/InstalldNativeService.cpp:805-884 | the same for every node at level 2 or deeper of a data directory, with the expectation its top-level directory was given |
| Fixup.FixedIsEffect | cmds/installd/InstalldNativeService.cpp:848-874 | the hierarchy afterwards is the effect of the calls: the GID that was set, and nothing else changed |
| Fixup.ForcedRun | cmds/installd/InstalldNativeService.cpp:841-882 | no run touches a node whose GID is neither its parent's UID nor that UID's cache GID; a forced one leaves all others of a repaired kind with the expected GID |
| Fixup.FixedRootIsEffect | cmds/installd/InstalldNativeService.cpp:805-884 | the same effect for a whole data directory and all calls made for it: its own and its packages' metadata stay, and below, exactly the GIDs that a call set are changed |
| Fixup.ForcedRunInRoot | cmds/installd/InstalldNativeService.cpp:805-884 | at every node at level 2 or deeper of a data directory: not touched if its GID does not belong to the app; after a forced run, the GID its top-level directory calls for otherwise |
| Fixup.SecondRunChangesNothing | cmds/installd/InstalldNativeService.cpp:805-884 | a second run makes no call at all, for all combinations of flags but a forced run after an ordinary one |
| Fixup.ForcedAfterOrdinary | cmds/installd/InstalldNativeService.cpp:841-882 | a forced run after an ordinary one makes no call if and only if nothing needs a repair below where the ordinary run turned back |
| Fixup.ForcedRepairsMore | cmds/installd/InstalldNativeService.cpp:845-847 | a hierarchy in which it does make one |
| FixupOutcome.FinalGroup | cmds/installd/InstalldNativeService.cpp:783-884 | for every file at level 2 or deeper after a run, forced or not: if its group belonged to the owner of the directory it is in and the run got to it, it has the app's cache group where the top-level directory is a cache directory by name or inode and there is such a group, and the app's own otherwise; in all other cases it has the group it had |
| FixupOutcome.CallsMade | cmds/installd/InstalldNativeService.cpp:848-874 | exactly which calls are made for it: regular files and directories have the group set, symbolic links without being followed, and a directory's mode is set exactly if it gets its parent's cache group |
| FixupOutcome.VisitedMeans | cmds/installd/InstalldNativeService.cpp:841-882 | an ordinary run gets to a file exactly if every directory on the way, from the top-level one, has a wrong group that belongs to the app |
| FixupOutcome.OnlyBelowPackages | cmds/installd/InstalldNativeService.cpp:831 | no call is made for a data directory or a package directory |
| Matchgen.InsertSpec | cmds/installd/matchgen.py:68-71 | filing a word changes the look-up of that word only, and fails exactly if the word is too long for the nested dictionaries |
| Matchgen.BuildTrie | cmds/installd/matchgen.py:63-71 | the loops fail exactly if some word is too long; otherwise looking any word up gives the type of the last row that lists it, ignoring case |
| Matchgen.AddRow | cmds/installd/matchgen.py:66-71 | the inner loop files all words of one row |
| Matchgen.SortedKeys | cmds/installd/matchgen.py:76 | the keys in strictly ascending order, none missing |
| Matchgen.EnterCase | cmds/installd/matchgen.py:77-85 | a case is entered by the character in either case and by no other, and runs its own statements only |
| Matchgen.DumpEnds | cmds/installd/matchgen.py:86-88 | a nested switch never falls through into what follows it |
| Matchgen.Dispatch | cmds/installd/matchgen.py:75-86 | among all cases of a switch exactly the one for the lower-cased character runs |
| Matchgen.DumpLooksUp | cmds/installd/matchgen.py:73-88 | running the emitted statements from any index looks the rest of the string up in the trie, without reading past the terminator |
| Matchgen.DumpAnswers | cmds/installd/matchgen.py:73-95 | the whole function answers with the last type listed for the lower-cased extension |
| Matchgen.LastListedMeans | cmds/installd/matchgen.py:65-71 | that type, spelled out: of the last row with a word equal to the extension up to the case of letters |
| Matchgen.LowerMeans | cmds/installd/matchgen.py:67 | two strings are lower-cased alike exactly if they are equal up to the case of letters |
| Matchgen.AnswersNeedOneType | cmds/installd/matchgen.py:65-71 | no program whatever answers correctly for every string if a word is listed under two types |
| Matchgen.DumpIsValid | cmds/installd/matchgen.py:76-86 | no emitted switch has two equal labels |
| Matchgen.Generate | cmds/installd/matchgen.py:63-95 | a program exactly if all words have at most five characters; it is valid, and for every string answers the type of the last row that has it as a word, ignoring case, and 0 if none has; so it answers a type exactly for that type's words and 0 exactly for all other strings if and only if no word has two types |
| DumpPoolSafety.WakeKept | cmds/dumpstate/DumpPool.cpp:178-192 | every step of every thread keeps: while a worker sleeps there are at least as many awake idle workers as queued tasks |
| DumpPoolSafety.PhasesKept | cmds/dumpstate/DumpPool.cpp:46-80 | every step keeps the phases of the pool: what holds while joining, while shut down, while waiting, and without threads |
| DumpPoolSafety.FifoKept | cmds/dumpstate/DumpPool.h:150-165 | every step keeps: tasks start in the order they were enqueued and each at most once |
| DumpPoolSafety.ExclusiveKept | cmds/dumpstate/DumpPool.cpp:184-190 | every step keeps: a task being run was started, is not finished, and is run by one worker only |
| DumpPoolSafety.FilesKept | cmds/dumpstate/DumpPool.h:150-159 | every step keeps: a worker's temporary file holds what its task has written so far, a finished task's file all of its output, and no two share a file |
| DumpPoolSafety.TidyKept | cmds/dumpstate/DumpPool.cpp:97-100 | every step keeps: a temporary file is being written or belongs to a finished task not yet waited for; once in the report it is gone |
| DumpPoolReport.NamesKept | cmds/dumpstate/DumpPool.cpp:82-93 | every step keeps: the futures are those of the names enqueued and not yet waited for, the last task of a name counting |
| DumpPoolReport.PromisesKept | cmds/dumpstate/DumpPool.cpp:90-96 | every step keeps: a task whose future may be read is queued, running or finished, never lost |
| DumpPoolReport.FaithfulKept | cmds/dumpstate/DumpPool.cpp:93-101 | every step keeps: the report is the sequential one with sections dressed as DumpFileToFd does, and with exactly the sections missing whose temporary file could not be created |
| DumpPoolReport.AddedNewlines | cmds/dumpstate/DumpstateInternal.cpp:164-195 | whichever sections are missing from both, the parallel report is longer than the sequential one by the number of sections whose output does not end with a newline, and equal exactly if there is none |
| DumpPoolReport.PendingMeans | cmds/dumpstate/DumpPool.cpp:85-91 | what a name stands for: the task enqueued last under it, unless it was waited for or the pool shut down since |
| DumpPoolReport.ShownMeans | cmds/dumpstate/DumpPool.cpp:85-97 | a command shows a task's section exactly if it waits for its name while it is pending and its file could be created |
| DumpPoolReport.ShownOnce | cmds/dumpstate/DumpPool.cpp:90-101 | no task is shown by two commands of a script, however names are reused |
| DumpPoolReport.ShownWhere | cmds/dumpstate/DumpPool.cpp:97 | a section that is shown stands in one piece right behind what the commands before it produced, and stays there |
| DumpPoolReport.ReportPieces | cmds/dumpstate/DumpPool.cpp:82-101 | the report is what the commands contribute, in their order: a text that is printed, and for a name waited for the output it was last enqueued with, followed by a newline exactly if it does not end with one |
| DumpPoolRuns.Always | cmds/dumpstate/DumpPool.cpp:46-192 | every reachable state of every script and interleaving satisfies all of these |
| DumpPoolRuns.CrewKept | cmds/dumpstate/DumpPool.cpp:46-60 | every step keeps: there are as many workers as the last start asked for but at most four, and four if the first task to be enqueued started them |
| DumpPoolRuns.EveryRun | cmds/dumpstate/dumpstate.cpp:1588-1634 | at every moment of every run, whichever temporary files cannot be created: start order, no lost wakeup, no stray file, the number of workers, and a report equal to that of a run without a pool but for those sections and the newlines, assembled command by command from the outputs themselves |
| DumpPoolRuns.ShutdownCleansUp | cmds/dumpstate/DumpPool.cpp:62-80 | when shutdown has returned after any run there is no worker, queued task, future or temporary file, and the pool can be started again |
| DumpPoolRuns.OnlyFinishing | cmds/dumpstate/DumpPool.cpp:70-76 | over every run from setting the flag to joining the threads no task starts, each worker stays with the task it had or is done with it, and its steps are bounded by what is left of that task and exiting |
| DumpPoolRuns.WorkDecreases | cmds/dumpstate/DumpPool.cpp:178-192 | every step but a spurious wakeup reduces the work left, which a spurious wakeup raises by one |
| DumpPoolRuns.RunsAreBounded | cmds/dumpstate/DumpPool.cpp:178-192 | the length of every run is bounded by its script and twice its spurious wakeups |
| DumpPoolRuns.NoDeadlock | cmds/dumpstate/DumpPool.cpp:62-101 | while commands are left some step other than a spurious wakeup is possible: waitForTask and shutdown never wait for something that will not happen |
| DumpPoolRuns.RunsGoOn | cmds/dumpstate/DumpPool.cpp:46-101 | every run whose script is not finished extends by such a step, unless start() is about to fail its assertions |
| TaskQueue.TakenKept | cmds/dumpstate/TaskQueue.cpp:27-36 | every step of concurrent adds and runs keeps: tasks leave in order, and each is invoked by one run, with that run's flag |
| TaskQueue.EffectsKept | cmds/dumpstate/dumpstate.cpp:3122-3137 | every step keeps: a taken task is in progress or its file was unlinked once, and zipped once exactly if its run does not cancel |
| TaskQueue.Always | cmds/dumpstate/TaskQueue.cpp:23-36 | every reachable state, for any number of threads, satisfies these |
| TaskQueue.EveryTaskOnce | cmds/dumpstate/dumpstate.cpp:3111-3137 | once all runs have returned and nothing is queued, every artifact ever added was unlinked exactly once, and zipped exactly once if and only if a run entered without cancelling took it: none if all runs cancel, all if none does |
| TaskQueue.FlagsAreArguments | cmds/dumpstate/TaskQueue.cpp:27-34 | in every run, the flag a task was invoked with is the argument of the last entry into run() of the thread that took it |
| TaskQueue.CancelledZipsNothing | cmds/dumpstate/dumpstate.cpp:3116-3127 | if all runs cancel, nothing is ever zipped |
| Consent.InvKept | cmds/dumpstate/dumpstate.cpp:726-764 | every step of the callback and of the main thread keeps the protocol's invariant |
| Consent.Always | cmds/dumpstate/dumpstate.cpp:2958-3012 | every reachable state satisfies it |
| Consent.NoLeak | cmds/dumpstate/dumpstate.cpp:3145-3200 | bytes reach the caller only for the shell or after approval, and a screenshot only if one was requested; screenshot and report are each successfully copied at most once although two threads may copy the screenshot |
| Consent.StatusMeans | cmds/dumpstate/dumpstate.cpp:2958-3012 | denied exactly if the user denied before the wait expired, and then nothing was or will be passed on; error: a copy failed; timed out: nothing was passed on before returning, and later only an early screenshot upon approval; OK: the report, and the screenshot if and only if one was requested, was copied if and only if the wait had not expired |
| Consent.OkAfterDenial | cmds/dumpstate/dumpstate.cpp:3009-3012 | a run that the user denied after the wait expired and that returns OK |
| Consent.ScreenshotAfterTimeout | cmds/dumpstate/dumpstate.cpp:729-752 | a run that returned as timed out and whose screenshot is then passed on |
| OtaPaths.SameBase | cmds/installd/dexopt.cpp:2293-2320 | whenever both path functions succeed they take the same file name, and the results differ in the slot and the truncation only |
| OtaPaths.ReplaceInA | cmds/installd/dexopt.cpp:793-814 | in an A name, for every base, the extension that was put there is the one replaced |
| OtaPaths.ReplaceInB | cmds/installd/dexopt.cpp:802-810 | in a B name so too, except for the slots "dex" and "odex…", where ".odex" stays |
| OtaPaths.NamesAgree | cmds/installd/otapreopt.cpp:616-647 | for every apk path, oat directory, instruction set and legal slot on which both succeed, the oat, vdex and art names written are those looked for if and only if the B path fits the buffer and the slot is not "dex" and does not start with "odex" |
| OtaPaths.DexSlot | cmds/installd/dexopt.cpp:794-800 | for every base, with the slot "dex" the vdex file is written under one name and looked for under another |
| OtaPaths.DexSlotDiffers | cmds/installd/otapreopt.cpp:616-647 | an input on which both computations succeed and the names differ |
| OtaPaths.SixNames | cmds/installd/dexopt.cpp:2196-2208 | the six names move_ab works with are six different names, and the image name is not empty |
| OtaPaths.WhoSucceeds | cmds/installd/otapreopt.cpp:622-631 | otapreopt's computation succeeds exactly if the last component of the path has a dot |
| OtaPaths.DefaultSpelled | cmds/installd/dexopt.cpp:2293-2320 | for every <dir>/<name>.<ext>: installd's path is <oat dir>/<isa>/<name>.odex, exactly if both given paths are rooted and without two dots in a row, the instruction set has no slash and the result fits |
| OtaPaths.OtaSpelled | cmds/installd/otapreopt.cpp:616-647 | for the same: otapreopt's path is that with the slot appended, cut off at the end of the buffer, and none exactly if the last dot is not in the file name |
| OtaPaths.NoDot | cmds/installd/dexopt.cpp:2303-2308 | without a dot there is no path |
| OtaPaths.SlotCharacters | cmds/installd/otapreopt_utils.h:27-31 | a slot is legal exactly if it is not empty and has letters, digits and underscores only |
| MoveAb.Disk.UnlinkAndRename | cmds/installd/dexopt.cpp:2116-2140 | when it succeeds and what is on disk then, and otherwise that nothing changes but a regular target that stat saw and unlink removed |
| MoveAb.Disk.MovePath | cmds/installd/dexopt.cpp:2143-2172 | exactly when it succeeds, for files of any kind; otherwise B is gone unless stat or unlink failed or it is a directory, and exactly when A is gone rather than what it was |
| MoveAb.MoveImage | cmds/installd/dexopt.cpp:2218-2225 | the A image is the old B image or absent, or what it was if it could not be unlinked |
| MoveAb.Promote | cmds/installd/dexopt.cpp:2210-2237 | whatever kinds of files there are and whichever stat, unlink and rename calls fail: success exactly if oat and vdex can be moved; then A's oat and vdex are the old B files and its image the old B image, absent or impossible to unlink; exactly which B artifacts remain; no other file changes |
| MoveAb.MoveRest | cmds/installd/dexopt.cpp:2212-2230 | the same for vdex and image once the oat file was moved |
| MoveAb.PlainPromotion | cmds/installd/dexopt.cpp:2210-2237 | for regular-file artifacts a B artifact remains if and only if it is not moved and unlink fails on it, or stat does when its turn to be moved comes; on success the image is stale if and only if it is not replaced and unlink fails on the old one |
| MoveAb.StatFails | cmds/installd/dexopt.cpp:2147-2152 | a B file on which stat fails, and which is still there afterwards |
| MoveAb.MoveArtifacts | cmds/installd/dexopt.cpp:2174-2238 | the same for the whole of move_ab, which changes nothing if a check or the path computation fails |
| MoveAb.NamesSpelled | cmds/installd/dexopt.cpp:2196-2208 | the six names, spelled out from the part they share |
| OtaParameters.Parameters.ReadArguments | cmds/installd/otapreopt_parameters.cpp:59-111 | which lines are accepted, and every field afterwards, for accepted and rejected lines, as a function of the line and the fields before |
| OtaParameters.Parameters.ReadArgumentsV1 | cmds/installd/otapreopt_parameters.cpp:143-238 | the same for version 1: exactly ten arguments are accepted, and the first ten are stored in any case |
| OtaParameters.Parameters.ReadArgumentsPostV1 | cmds/installd/otapreopt_parameters.cpp:240-377 | the same for later versions: nothing is stored unless the version is known and the count is right, and a line rejected for its shared libraries is stored all the same |
| OtaFields.VersionedLine | cmds/installd/otapreopt_parameters.cpp:240-377 | for every version and line: exactly when it is accepted, and each field by the position of its word, the defaults of the words a version does not have, the flags with bit 2048 set before version 8 and as given from then on; what a rejected line leaves behind |
| OtaFields.OldLine | cmds/installd/otapreopt_parameters.cpp:143-238 | the same for version 1, with each flag bit from the old one |
| OtaParameters.RemappedSmall | cmds/installd/otapreopt_parameters.cpp:194-211 | for every old flag word the remapped flags are below 32, and starting from the default flag only adds that flag |
| OtaParameters.NextVersion | cmds/installd/otapreopt_parameters.cpp:240-377 | for versions 2 to 6, every slot and every argument list, accepted or not: reading it equals reading the next version's line with the textual default appended |
| OtaParameters.UnversionedIsVersion2 | cmds/installd/otapreopt_parameters.cpp:81-102 | the form without a version is accepted exactly with ten arguments, or with eleven whose shared libraries are not "&", and with eleven it is read as version 2 |
| OtaParameters.Version1IsVersion2 | cmds/installd/otapreopt_parameters.cpp:143-238 | a version 1 line is always read, and equals the version 2 line with remapped flags, needed = 1 and null se_info if and only if its shared libraries are not "&" |
| OtaParameters.AmpersandDiffers | cmds/installd/otapreopt_parameters.cpp:143-238 | a version 1 line that is read although the version 2 line that spells it out is rejected |

## Left out

- File hierarchy: fts errors, unreadable directories, hard links and mount points do not occur, names are unique within a directory, and the hierarchy does not change while it is walked.
- CacheTracking.CacheTracker.LoadItemsFrom: items are values and an entry's pointer is an index into the items, so sharing of CacheItem objects after the load, and the parent pointers kept for buildPath, appear as paths.
- CacheTracking.CacheTracker.SortItems: sorts by the order the comparator is meant to be, since std::stable_sort promises nothing for the comparator as written.
- CacheTracking.CacheTracker.LoadStats: the quota queries and the size of a tree are parameters.
- 64-bit overflow of sums and products of byte counts; only the conversion of the ratio to int is modelled.
- Eviction.Top: stands for std::priority_queue by its contract, with the keys trackers were pushed under, which are proved to be up to date.
- Eviction.FreeCache: the discovery of trackers, their paths and quotas (lines 1372-1417) comes before the call.
- Purging.Purge: a symbolic link's target is not part of the model, so what truncating through one does is not stated.
- Fixup.FixupUser: one user; the loop over users only repeats it. The calls it makes are assumed to succeed where the resulting hierarchy is described.
- Matchgen.Generate: programs are statement lists rather than text, words contain no NUL character, case conversion is that of ASCII, and the table TYPES with its output MatchExtensionGen.h is one instance that is not written out.
- DumpPoolRuns.EveryRun: Cancel deleting temporary files under running workers, the early return when consent is denied, titles, and failing reads of temporary files are not steps; the duration line is part of a task's output.
- DumpPoolRuns.NoDeadlock: start() called with a count of zero or with threads left stops the script, as its assertions do.
- TaskQueue.EveryTaskOnce: adding to the zip and unlinking are effects on a log; whether they succeed is not modelled.
- Consent.StatusMeans: the companion service answers at most once; sleeping is a step of arbitrary length; deletion of internal files after denial is not modelled.
- MoveAb.Promote: artifacts are not symbolic links.
- MoveAb.MoveArtifacts: validate_apk_path is a parameter.
- OtaParameters.Parameters.ReadArguments: strtoll on the version is a parameter, and atoi is for numbers that fit.
- Everything else in the repository: binder, SELinux and properties, dex2oat and profman argument assembly, snapshots and moves of app data, progress estimation, the contents of bugreport sections, the other commands, libraries and services.
