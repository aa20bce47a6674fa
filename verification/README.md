# Verified model of oh-my-codex's stateful cores

oh-my-codex (OMX) wraps Codex sessions in tmux, cleans up after them, drives autonomous research runs and edits the
user's configuration files. This project models the parts of it that keep state or must not lose text, and proves what
they promise, for every input, every run and every interleaving. `dafny verify dfyconfig.toml` checks all of it.

What is modelled:

- **The tmux extended-keys lease** (`Lease*.dfy`, `HolderPids.dfy`, `ProcStat.dfy`). Many OMX processes share one tmux server option
  through a lease file guarded by a lock directory. `LeaseFile` has the two operations as a class that rewrites option
  and file command by command, and the effect of a whole operation as a function. `LeaseAtomic` is a machine of whole
  operations, births and deaths; `LeaseMicro` interleaves the single commands of any number of processes;
  `LeaseRefinement` shows that every run of the second looks like a run of the first, `LeaseGuarantees` says what
  users of the lease get, and `LeaseProgress` that they get it in a bounded number of steps. `ProcStat` is the parser of
  `/proc/<pid>/stat` that protects reaping from pid reuse, with a printer of the kernel's line as its partner, and
  `HolderPids` says which pid a holder names.
- **Process cleanup** (`ProcessTree.dfy`, `Candidates.dfy`, `Kill.dfy`, helped by `Sequences.dfy`): the two upward walks,
  the downward closure, the grouping of duplicate siblings, and the SIGTERM-then-SIGKILL kill against a system that
  answers as it likes.
- **The autoresearch supervisor** (`Supervisor.dfy`, `SupervisorRuns.dfy`, `SupervisorCases.dfy`): one keep-or-discard
  iteration over manifest, ledger and git HEAD, whole runs with an adversarial worker, an arbitrary evaluator, and resumes
  and stops at will, and what each kind of iteration does to every run that gets there.
- **The sorting demo with operation counters** (`SortSpec.dfy`, `InsertionSort.dfy`, `MergeSort.dfy`, `HybridSort.dfy`):
  correctness and exact costs of three sorts and their dispatcher.
- **Shell quoting** (`ShellQuote.dfy`), with a tokenizer for POSIX.1-2017 XCU sections 2.2.1, 2.2.2, 2.2.3 and 2.3 as its partner.
- **Line editors and their readers** (`Text.dfy`, `Lines.dfy`): top-level TOML keys (`TopLevelToml.dfy`, `TomlLens.dfy`,
  `TomlOthers.dfy`, `TomlReading.dfy`) and plugin tables (`PluginTable.dfy`, `PluginLens.dfy`, `PluginText.dfy`,
  `PluginReading.dfy`, `PluginServers.dfy`).
- **The sandbox file** (`SandboxContract.dfy`, `SandboxRoundTrip.dfy`, `SandboxReading.dfy`): frontmatter parser, contract
  checks and printer.
- **The autoresearch goal workflow** (`GoalWorkflow.dfy`, `GoalRuns.dfy`, `GoalOutcomes.dfy`): mission, completion and
  ledger files.

Each stateful core is a class or a method over arrays and sequences, proved equal to a function of the old state; the
properties are then proved of that function over whole runs, on the fields and characters themselves.

## What the proofs found

Where the code does not keep a promise on all inputs, the model keeps the code, shows an input that fails, and proves
exactly when the promise holds.

- Taking over a lock judged stale is not safe: the check and the removal are two steps, and a lock directory has no pid
  file for a moment. `LeaseGuarantees.TakeoverBreaksExclusion` gives a run with two processes inside, for any two pids,
  and `LeaseGuarantees.TakeoverAlwaysBreaks` carries any reachable first judgement on to that; the moment before the pid
  file is written is the only one at which a first judgement can fall (`LeaseGuarantees.StaleOnlyUnnamed`).
- A tmux option that printed as nothing comes back as `off`, not unset (`LeaseFile.ReleaseUndoesFirstAcquire`).
- The walk to the protected root has no visited set, so it ends exactly when it meets a stop within as many steps as
  there are processes (`ProcessTree.HaltsIff`); it does not on two processes that name each other as parent
  (`ProcessTree.EndlessTable`). A chain of parents without a cycle is enough (`ProcessTree.AcyclicHalts`).
- A kept commit is the proposed one only if the evaluator left HEAD alone (`SupervisorRuns.KeptIsProposedIff`,
  `SupervisorRuns.DriftExample`).
- Editing a top-level TOML key is not idempotent on LF text with a stray final carriage return, which the appended line
  feed turns into CRLF (`TomlLens.PutPutIff`), and the same carriage return can hide a comment from the reader, so the
  edit changes what another key reads as (`TomlOthers.OtherKeysUnchangedIff`, `TomlOthers.StrayExample`).
- A value with a quote or a backslash is written escaped but read back without unescaping, and a `#` starts a comment
  even between quotes (`TomlLens.PutGetIff`).
- Switching a plugin table twice differs from once exactly when a line that the first time keeps ends in a carriage
  return (`PluginServers.IdempotentIff`), as on a CRLF text without the table (`PluginServers.NotIdempotent`).
- Switching a plugin table also drops or adds empty lines at the end of the text and stray carriage returns
  (`PluginText.OutsideKeptIff`, `PluginText.CreatedKeepsIff`).
- A forced recreation of a goal keeps the old completion file, so the new goal completes on the old goal's verdict
  (`GoalRuns.StalePassCompletes`, `GoalRuns.RecreatedCompletesIff`).
- The sandbox printer flattens line breaks and the parser expands tabs and takes one quote off each end, so a command
  comes back whole only under a condition on its text (`SandboxRoundTrip.SandboxRoundTripIff`).

## Model

| member | source | states |
|---|---|---|
| LeaseGuarantees.ConcurrentSafety | src/cli/index.ts:2507-2758 | In every interleaving of the single commands in which no lock is judged stale: at most one process is inside the lock; the run is, command for command, a run of whole operations; a lease that a living process relies on keeps the option at "always" in every intermediate state; and whenever the lock is free, no file means the user's mode and a file means "always" with the user's mode saved in it |
| LeaseGuarantees.ReliedKeepsMode | src/cli/index.ts:2669-2752 | Not even between two commands of another process's acquire or release does the option drop while a living holder relies on it |
| LeaseGuarantees.LastReleaseRestores | src/cli/index.ts:2722-2758 | The release of the last living holder removes the file and restores the user's mode although all other holders died without releasing; a dead holder without start ticks counts too, unless a new process got its pid while the lock was held |
| LeaseGuarantees.AcquireLists | src/cli/index.ts:2669-2697 | Over every run without a stale judgement a completed acquire leaves the option at "always" and its own holder in the file: its id, its pid, its platform and, on Linux, if the process was there, that very process's start ticks |
| LeaseGuarantees.HolderOfTheLiving | src/cli/index.ts:2457-2471 | That process is the one that has the pid when the file is about to be written |
| LeaseGuarantees.ReapedExactly | src/cli/index.ts:2485-2505 | Over every such run on Linux the next pass over the file keeps a holder whose process was there when it was written exactly while that process lives, although the pid may have been given out again |
| LeaseGuarantees.AllDeadStartsOver | src/cli/index.ts:2670-2685 | An acquire that finds all holders dead puts the saved mode back, then removes the file, then reads the mode anew |
| LeaseGuarantees.StaleOnlyUnnamed | src/cli/index.ts:2520-2549 | Until a first stale judgement, a lock can be judged stale exactly while its owner is between mkdir and the writing of the pid file |
| LeaseProgress.OwnerFinishes | src/cli/index.ts:2516-2526 | The owner of the lock removes it after at most twelve steps of its own plus two for every listed holder, however the steps of other processes fall between them |
| LeaseProgress.WaitsItsTurn | src/cli/index.ts:2518-2554 | Against a lock that stays taken a process makes exactly one hundred tries, changes nothing, and gives up |
| LeaseProgress.StartsWaiting | src/cli/index.ts:2518-2519 | The count of tries starts when the process asks for the lock |
| LeaseProgress.BreakingCostsTry | src/cli/index.ts:2533-2549 | Removing a lock judged stale uses up one of these tries |
| HolderPids.LegacyPidIff | src/cli/index.ts:2421-2435 | A bare-string holder names the positive safe integer that stands, without leading zeros, before its first dash, and otherwise nobody |
| HolderPids.RecordPidIff | src/cli/index.ts:2432-2435 | A record names its pid if that is a positive safe integer; any other record is dead, whatever processes there are |
| LeaseGuarantees.TakeoverBreaksExclusion | src/cli/index.ts:2533-2549 | For any two processes there is a run with a stale takeover after which both are inside the lock |
| LeaseGuarantees.TakeoverAlwaysBreaks | src/cli/index.ts:2533-2549 | From every state that a run without a stale judgement reaches, the first such judgement by a process with an attempt left can be carried on to two processes inside |
| LeaseRefinement.RunRefines | src/cli/index.ts:2507-2758 | Every reachable state of the interleaved protocol abstracts to the state that the translated run of whole operations reaches, and that run is possible |
| LeaseRefinement.StepKeeps | src/cli/index.ts:2507-2758 | Each single command keeps the invariant of the protocol: one owner of the lock, its local copies true, its phase justified |
| LeaseAtomic.LeaseSafety | src/cli/index.ts:2654-2758 | Over all runs of acquire, release, birth and death: no file means the user's mode, a file has a holder and the user's mode and the option is "always", and every lease relied on is listed |
| LeaseAtomic.ReleaseRestoresIff | src/cli/index.ts:2722-2752 | A release removes the file exactly when every other holder was struck off, and then the option is the user's mode; otherwise the option stays "always" |
| LeaseAtomic.VerdictExact | src/cli/index.ts:2485-2496 | A living owner is never judged dead. On Linux, for a holder written on Linux with start ticks, the verdict is exact even if the pid was given out again; in every other case it goes by the pid alone |
| LeaseAtomic.VerdictsSound | src/cli/index.ts:2498-2505 | A pass over the whole file with the verdicts of the moment strikes off no living owner |
| LeaseFile.MaskContents | src/cli/index.ts:2498-2505 | Filtering by verdicts keeps exactly the holders judged alive |
| LeaseFile.ReleaseUndoesFirstAcquire | src/cli/index.ts:2669-2752 | A release after the first acquire leaves no file and the option as it was, an empty one as "off" |
| LeaseFile.ReleaseUndoesAcquire | src/cli/index.ts:2669-2752 | A release after a later acquire gives the same file and option back |
| LeaseFile.AcquiredThenReaped | src/cli/index.ts:2457-2505 | What an acquire on Linux writes for a living process survives a later pass exactly if the pid still belongs to the process that was born then |
| LeaseFile.LeaseStore.Reap | src/cli/index.ts:2498-2505 | The loop over the holders keeps, in order, those the liveness verdict calls alive |
| LeaseFile.LeaseStore.Acquire | src/cli/index.ts:2654-2704 | The commands of an acquire come to the effect of a whole acquire, including the restore of a lease whose holders all died |
| LeaseFile.LeaseStore.Release | src/cli/index.ts:2706-2758 | The commands of a release come to the effect of a whole release |
| ProcStat.StartTicksRoundTrip | src/cli/index.ts:2437-2447 | The parser returns field 22 of every printed stat line, for every command name, closing parentheses and blanks included, if the line is long enough and the number is a safe integer; otherwise nothing |
| ProcStat.NoCommandNoTicks | src/cli/index.ts:2437-2439 | A line without a closing parenthesis reads as nothing |
| ProcessTree.HasAncestorMatching | src/cli/cleanup.ts:214-231 | The walk with a visited set ends on every table and answers whether some proper ancestor matches |
| ProcessTree.ResolveProtectedRootPid | src/cli/cleanup.ts:233-255 | On every table on which the walk ends, it returns the nearest Codex ancestor-or-self, or the current pid when there is none |
| ProcessTree.HaltsIff | src/cli/cleanup.ts:245-252 | The walk ends exactly when it meets a stop within as many steps as there are processes |
| ProcessTree.EndlessWalk | src/cli/cleanup.ts:245-252 | On every other table the walk takes a next step from every pid it reaches, so it does not end |
| ProcessTree.EndlessTable | src/cli/cleanup.ts:245-252 | There are such tables: two processes, neither of them Codex, that name each other as parent |
| ProcessTree.AcyclicHalts | src/cli/cleanup.ts:245-252 | The walk ends wherever the chain of parents has no cycle |
| ProcessTree.RootUnique | src/cli/cleanup.ts:233-255 | There is one protected root only |
| ProcessTree.BuildProtectedPidSet | src/cli/cleanup.ts:257-283 | The worklist ends on every table and returns exactly the reflexive-transitive descendants of the protected root |
| ProcessTree.CurrentIsProtected | src/cli/cleanup.ts:257-283 | The current process is always in the protected set |
| ProcessTree.ProtectedHasCodexAncestor | src/cli/cleanup.ts:214-283 | What the worklist reaches downwards from a Codex root, the upward walk finds below a Codex process |
| Candidates.GroupSiblings | src/cli/cleanup.ts:288-297 | Processes are grouped by parent and entrypoint, each group complete and in the order of the table |
| Candidates.FindDuplicateSiblingCleanupCandidates | src/cli/cleanup.ts:285-312 | Exactly the processes that a newer sibling supersedes, in strictly rising order of pid |
| Candidates.DuplicatesPartition | src/cli/cleanup.ts:285-312 | Each group loses all but its newest member: MCP processes are the duplicates plus one survivor a group |
| Candidates.FindCleanupCandidates | src/cli/cleanup.ts:314-335 | A process is selected iff it is another MCP process that is superseded or unprotected, with the right reason, in strictly rising order of pid |
| Candidates.FindLaunchSafeCleanupCandidates | src/cli/cleanup.ts:337-358 | The launch-safe selection is exactly the manual one restricted to children of pid 0 or 1 and to processes with no Codex session and no OMX launch among their proper ancestors, in strictly rising order of pid |
| Candidates.LaunchSafeSparesLaunch | src/cli/cleanup.ts:345-357 | Whatever a Codex session or an OMX launch started, at whatever depth, is selected only as a child of pid 0 or 1 |
| Candidates.LaunchSafeSparesSession | src/cli/cleanup.ts:337-358 | Below a Codex root the launch-safe selection holds at most children of pid 0 or 1 |
| Candidates.LaunchSafeSparesAll | src/cli/cleanup.ts:337-358 | With pid 1 at the top of the table it holds no proper descendant of the root at all |
| Kill.DropExited | src/cli/cleanup.ts:384-396 | One round of probes: who is dropped was seen gone, who stays was seen alive |
| Kill.WaitForPidsToExit | src/cli/cleanup.ts:371-396 | For any answers of the system and an advancing clock the wait ends; who is left was seen alive after the deadline, everybody else was seen gone; it fails only with what a probe threw, and keeps the order |
| Kill.SendAll | src/cli/cleanup.ts:461-469 | Signals go out in order until one throws; a process already gone is no failure |
| Kill.SomeForced | src/cli/cleanup.ts:486-512 | If those that outlived SIGTERM got SIGKILL, terminated plus failed are all candidates, forced plus failed are all killed, and failed is the set that outlived SIGKILL |
| Kill.CleanupOmxMcpProcesses | src/cli/cleanup.ts:442-528 | The log of signals is SIGTERM to every candidate and then SIGKILL to exactly those seen alive after the grace period; failed ones were killed and seen alive after the second period; every other candidate was seen gone and counts as terminated; a dry run sends nothing; it fails only with what a probe or a signal threw, and then leaves a prefix of that log |
| Supervisor.Supervision.constructor | src/autoresearch/runtime.ts:783-816 | A fresh run has the evaluated baseline as its only entry and its passing score as the score to beat |
| Supervisor.Supervision.ProcessCandidate | src/autoresearch/runtime.ts:1222-1283 | One iteration, field by field and file by file, is the modelled step, escaping exceptions included |
| Supervisor.Supervision.RecordNonEvaluated | src/autoresearch/runtime.ts:1171-1220 | Aborts, noops and interruptions, clean and dirty, leave manifest and ledger as the modelled step does, whose cases SupervisorCases proves |
| Supervisor.Supervision.FailTheIteration | src/autoresearch/runtime.ts:1132-1169 | A refused artifact is logged as an error and ends the run |
| Supervisor.Supervision.RecordIteration | src/autoresearch/runtime.ts:357-396 | An iteration appends one entry with the manifest's iteration and kept commit |
| Supervisor.Supervision.FinalizeRun | src/autoresearch/runtime.ts:1057-1073 | Status and stop reason are set and saved |
| Supervisor.Supervision.ResetToLastKept | src/autoresearch/runtime.ts:1075-1078 | A clean worktree is reset to the last kept commit, a dirty one is never touched |
| Supervisor.CountTrailingNoops | src/autoresearch/runtime.ts:425-434 | The count covers all noop iterations at the end of the ledger and no other |
| SupervisorRuns.WorkKeeps | src/autoresearch/runtime.ts:1222-1283 | Every iteration keeps ledger and manifest in step, and after an evaluated one HEAD is the kept commit of its entry |
| SupervisorRuns.HeadIsKept | src/autoresearch/runtime.ts:1250-1283 | In every run, after each evaluated iteration HEAD is the last kept commit of the saved manifest and of the ledger |
| SupervisorRuns.LedgerIsChain | src/autoresearch/runtime.ts:357-396 | In every run: entry k has iteration k, a non-error entry's base is the commit kept before it, only a keep changes the kept commit, nothing follows an error or an abort, and the saved manifest agrees with the ledger |
| SupervisorRuns.SupervisorKeepsBest | src/autoresearch/runtime.ts:543-631 | In every run under score_improvement: with no passing baseline score nothing is ever kept; otherwise the kept score is the maximum of all passing scores in the ledger, the kept commit is the one that scored it, and every keep beats all before it |
| SupervisorRuns.KeptIsProposedIff | src/autoresearch/runtime.ts:1250-1258 | In every run all keeps keep the commit that was proposed exactly when the evaluator never moved HEAD while it judged a winning candidate |
| SupervisorRuns.DriftNamesEntry | src/autoresearch/runtime.ts:1250-1258 | Where it did, the iteration's own entry keeps the evaluator's commit instead of the proposed one |
| SupervisorRuns.DriftExample | src/autoresearch/runtime.ts:1250-1258 | There are such runs, of one iteration, whatever the commits are called |
| SupervisorCases.StartsAtBaseline | src/autoresearch/runtime.ts:783-816 | A run starts running, with the evaluated baseline as its only entry; its score is the one to beat only if it passed |
| SupervisorCases.ValidateIff | src/autoresearch/runtime.ts:1080-1130 | An artifact is accepted exactly when its base resolves to the last kept commit and, for a proposal, its commit is given and resolves to HEAD; otherwise the first thing wrong with it is the reason |
| SupervisorCases.RefusedFails | src/autoresearch/runtime.ts:1132-1169 | In every run, a missing, unreadable, stale or misdirected artifact is logged as an error with its reason and ends the run as failed |
| SupervisorCases.AbortStops | src/autoresearch/runtime.ts:1186-1194 | In every run, an accepted abort is logged as one and ends the run as stopped, and nothing can follow |
| SupervisorCases.NoopGoesOn | src/autoresearch/runtime.ts:1212-1220 | In every run, an accepted noop is logged as one and the run goes on with HEAD and kept commit as they were |
| SupervisorCases.InterruptionGoesOnIff | src/autoresearch/runtime.ts:1196-1211 | In every run, an interruption is logged and the run goes on if the worktree is clean; if it is dirty nothing is logged and the run ends as failed |
| SupervisorCases.ProposalKept | src/autoresearch/runtime.ts:543-631 | In every run, a proposal that passes and, under score_improvement, beats the last kept score is kept with HEAD as the evaluator left it |
| SupervisorCases.ProposalDropped | src/autoresearch/runtime.ts:543-631 | In every run, every other proposal is reset to the kept commit and logged, as ambiguous if it passed without two scores to compare and as a discard otherwise, with the reason; if the evaluator left the worktree dirty nothing is reset, logged or saved |
| SupervisorCases.RunsUntilEnded | src/autoresearch/runtime.ts:1285-1330 | In every run, only an operator stop, an abort, a refused artifact and a dirty interruption end it |
| SortSpec.Ops.Compare | playground/adaptive_sort_demo/sort_benchmark.py:24-26 | A comparison is charged and says which argument is greater |
| SortSpec.Ops.Move | playground/adaptive_sort_demo/sort_benchmark.py:28-29 | Moves are charged as given |
| SortSpec.InversionsCountPairs | playground/adaptive_sort_demo/sort_benchmark.py:36-48 | The inversion number is the number of pairs in the wrong order |
| SortSpec.SortedPermutationUnique | playground/adaptive_sort_demo/sort_benchmark.py:106-125 | A list has one sorted permutation, so correct sorts agree |
| InsertionSort.ShiftGreater | playground/adaptive_sort_demo/sort_benchmark.py:41-46 | The inner loop moves up exactly the greater elements, one move each, and finds the key's place |
| InsertionSort.InsertionSort | playground/adaptive_sort_demo/sort_benchmark.py:36-48 | The result is the sorted permutation; moves are inversions + 2(n - 1), and comparisons are inversions plus the number of keys that meet an element no greater |
| InsertionSort.InsertionCostBounds | playground/adaptive_sort_demo/sort_benchmark.py:36-48 | So comparisons lie between the inversions and the inversions + n - 1 |
| MergeSort.Merge | playground/adaptive_sort_demo/sort_benchmark.py:58-74 | The merge loop gives the merge of its halves with one move an element and at most n - 1 comparisons |
| MergeSort.MergeSort | playground/adaptive_sort_demo/sort_benchmark.py:51-74 | The result is the sorted permutation at the cost the recurrence gives |
| MergeSort.MergeSortCost | playground/adaptive_sort_demo/sort_benchmark.py:51-74 | For n >= 1, moves are exactly n ceil(log2 n) - 2^ceil(log2 n) + n and comparisons at most n ceil(log2 n) - 2^ceil(log2 n) + 1 |
| SortSpec.CeilLog2Bounds | playground/adaptive_sort_demo/sort_benchmark.py:51-74 | The logarithm of the cost is the true rounded-up one: 2^(k-1) < n <= 2^k |
| HybridSort.CountingSort | playground/adaptive_sort_demo/sort_benchmark.py:77-90 | The buckets give the sorted permutation with no comparison and exactly (max - min + 1) + 2n moves |
| HybridSort.LongestNonDecreasingRun | playground/adaptive_sort_demo/sort_benchmark.py:93-103 | The result is the length of a contiguous non-decreasing run and no run is longer |
| HybridSort.HybridSort | playground/adaptive_sort_demo/sort_benchmark.py:106-121 | For every list and every setting of the thresholds, missing ones included, the result is the sorted list, at the cost of the branch the settings choose |
| HybridSort.BaselineSort | playground/adaptive_sort_demo/sort_benchmark.py:124-125 | The baseline gives the same list |
| HybridSort.BranchCosts | playground/adaptive_sort_demo/sort_benchmark.py:106-121 | The costs of the three branches in closed form |
| HybridSort.BranchIff | playground/adaptive_sort_demo/sort_benchmark.py:106-121 | Which branch is taken, in terms of length, pairwise differences and non-decreasing runs, with the defaults 12, 128 and 10 |
| ShellQuote.QuotedReads | src/cli/index.ts:3911-3913 | A POSIX shell reads a quoted argument back as itself, whatever it holds and whatever follows |
| ShellQuote.ShellCommandReads | src/cli/index.ts:3844-3846 | A built command tokenizes to the command and its arguments, empty ones and quotes included |
| ShellQuote.PaneCommandReads | src/cli/index.ts:3889-3909 | The pane command tokenizes to three words: the shell path without blanks around it if it is one of the fifteen allowed, "/bin/sh" otherwise; -c; and a script, which is a prologue and then a command that tokenizes to exec, the command and its arguments. The prologue is the one for zsh or bash if the setting is "1" and the path ends in that name, letter case aside, and empty otherwise |
| ShellQuote.PrologueIff | src/cli/index.ts:3896-3908 | The script begins with the zsh prologue, the bash prologue or exec exactly when setting and path ask for it |
| TopLevelToml.ReadTopLevelTomlString | src/cli/index.ts:2167-2186 | The reading loop returns the first assignment of the key above the first table |
| TopLevelToml.UpsertTopLevelTomlString | src/cli/index.ts:2188-2235 | The editing loop overwrites the first assignment of the key above every table, or inserts one there, and ends the text with its own end-of-line mark |
| TomlReading.ReadIff | src/cli/index.ts:2167-2186 | The value read is that of the first assignment of the key above every table header |
| TomlReading.QuotedValueRead | src/cli/index.ts:2182-2185 | However a line is laid out, a value in single or in double quotes is read without them |
| TomlReading.BareValueRead | src/cli/index.ts:2182-2185 | However a line is laid out, any other value is read as it stands between the equals sign and the comment |
| TomlReading.SkippedIff | src/cli/index.ts:2175-2176 | A line is passed over exactly when the first thing on it is a comment or there is nothing |
| TomlReading.HeaderIff | src/cli/index.ts:2177 | A line is a table header exactly if it reads "[name]" with no bracket in the name, blanks and a comment aside |
| TomlReading.ValidKeyIff | src/cli/index.ts:2182 | Keys are made of ASCII letters and digits, the underscore, the dot and the dash |
| TomlLens.PutPutIff | src/cli/index.ts:2188-2235 | A second setting overrides the first exactly when the text is not LF text with a stray final carriage return outside the overwritten line |
| TomlLens.PutGetIff | src/cli/index.ts:2167-2258 | Reading gives what was set, on every text, exactly when the key is a key and the value holds no quote, backslash, # or line terminator |
| TomlOthers.OtherKeysUnchangedIff | src/cli/index.ts:2167-2235 | Another key reads as before, except exactly when the text is LF text whose last line is the one that assigns it, has a comment and ends in a stray carriage return |
| TomlOthers.CrHidesIff | src/cli/index.ts:2179-2185 | A carriage return at the end of a line changes what the line says of a key exactly when the line assigns the key and a # starts a comment there |
| TomlOthers.StrayExample | src/cli/index.ts:2230-2234 | There are such texts, for every two keys |
| PluginTable.PluginMcpServerEnabled | src/cli/doctor.ts:1595-1609 | The reader returns the first enabled value in the first table with that header |
| PluginReading.ReadingIff | src/cli/doctor.ts:1595-1609 | The answer is that of the first enabled line between the first such header and the next table |
| PluginReading.EnabledIff | src/cli/doctor.ts:1605-1606 | A line is an enabled line exactly if it reads "enabled = true" or "enabled = false", blanks aside |
| PluginReading.SetsKeyIff | src/cli/plugin-marketplace.ts:331 | A line sets a key exactly if the key and an equals sign are the first things on it |
| PluginReading.HeaderIff | src/cli/plugin-marketplace.ts:290-302 | A line is a header exactly if it is the header's text between blanks |
| PluginReading.OpensTableIff | src/cli/doctor.ts:1604 | A line opens a table exactly if a bracket is the first thing on it |
| PluginTable.DedupeInPlace | src/cli/plugin-marketplace.ts:328-341 | The loop that splices its own lines ends, rewrites the first line of the key, drops the later ones and leaves all other lines |
| PluginTable.UpsertTomlTableBooleanKey | src/cli/plugin-marketplace.ts:304-348 | The editor does what the modelled edit says, for a missing table, a missing key and a repeated key |
| PluginText.EditedText | src/cli/plugin-marketplace.ts:313-347 | Switching a table that is there, line by line of the text that comes out: the lines up to its header are the same but for stray carriage returns, its body is the edited one, and from the next table on the lines are the same but for stray carriage returns and empty lines at the end |
| PluginText.OutsideKeptIff | src/cli/plugin-marketplace.ts:313-347 | All lines outside the table survive exactly when none of them ends in a stray carriage return and, if another table follows, the text ends in exactly one line feed |
| PluginText.CreatedText | src/cli/plugin-marketplace.ts:315-319 | Switching a table that is not there gives the lines of the text without the blanks at its end, an empty line and the new table |
| PluginText.CreatedKeepsIff | src/cli/plugin-marketplace.ts:315-319 | All lines of the text survive exactly when it is not blank and has no blanks at its end, but for at most one line feed |
| PluginText.CrLfIff | src/cli/plugin-marketplace.ts:315-347 | The result shows a CRLF exactly when a line that the edit keeps ends in a carriage return, said of the text before the edit |
| PluginLens.UpsertReads | src/cli/plugin-marketplace.ts:304-348 | On every text, reading a switched table gives what it was switched to |
| PluginLens.UpsertLeavesOthers | src/cli/plugin-marketplace.ts:304-348 | On every text, no other table's reading changes |
| PluginServers.UpsertLocalOmxPluginMcpServerEnablement | src/cli/plugin-marketplace.ts:389-402 | The loop switches the tables of all first-party servers in turn |
| PluginServers.UpsertLocalOmxPluginEnablement | src/cli/plugin-marketplace.ts:350-387 | The plugin's own table is switched on by the same edit |
| PluginServers.ServersReadBack | src/cli/plugin-marketplace.ts:389-402 | On every text, afterwards each first-party server reads as chosen and any other table reads as before |
| PluginServers.PluginReadsBack | src/cli/plugin-marketplace.ts:350-387 | On every text, switching the plugin on is read back from its own table, and every other table, each server's included, reads as before |
| PluginServers.IdempotentIff | src/cli/plugin-marketplace.ts:304-348 | Switching a table twice is the same as once exactly when no line that the first time keeps ends in a carriage return: in a text without the table, when its trimmed text has no CRLF; in one with it, when splitting leaves no carriage return on any line but the ones overwritten |
| PluginServers.NotIdempotent | src/cli/plugin-marketplace.ts:304-348 | There are texts on which the second time makes a difference: two lines with a CRLF between them |
| PluginServers.ServersIdempotent | src/cli/plugin-marketplace.ts:389-402 | On LF text, switching all servers again changes nothing |
| SandboxContract.ParseSimpleYamlFrontmatter | src/autoresearch/contracts.ts:93-133 | The loop over the lines builds the modelled record or fails at the first bad line |
| SandboxReading.ExtractsAt | src/autoresearch/contracts.ts:82-91 | A file that opens with a fence splits at the first line that starts with another; the body is the rest, trimmed |
| SandboxReading.ExtractsIff | src/autoresearch/contracts.ts:82-91 | Every other file is refused for want of frontmatter |
| SandboxReading.LineReads | src/autoresearch/contracts.ts:97-130 | What each kind of line does, however it is laid out: it opens a section, is refused, fills a field of the open section, or is a scalar and closes the section |
| SandboxReading.CommentSkipped | src/autoresearch/contracts.ts:99-100 | A blank line and a comment change nothing |
| SandboxReading.NameIff | src/autoresearch/contracts.ts:102 | Names are made of ASCII letters and digits, the underscore and the dash |
| SandboxReading.QuotesComeOff | src/autoresearch/contracts.ts:116 | One quote comes off each end of a value, whether or not the two match |
| SandboxReading.NeverInvalidSection | src/autoresearch/contracts.ts:117-125 | On every text the open section is one, so the error about an invalid section never arises |
| SandboxReading.ContractIff | src/autoresearch/contracts.ts:149-184 | The contract of any frontmatter, or the first of five errors, in terms of the fields given |
| SandboxRoundTrip.PrintedExtracts | src/autoresearch/contracts.ts:82-91 | The frontmatter of a printed file is its four lines, and its body is empty |
| SandboxRoundTrip.PrintedParses | src/autoresearch/contracts.ts:93-184 | What every printed file parses to: the flattened command with tabs expanded and one quote off each end and the policy; an unsupported line when a line terminator is left inside; a missing command when nothing is left |
| SandboxRoundTrip.SandboxRoundTripIff | src/cli/autoresearch-intake.ts:122-125 | Parser and printer agree on the trimmed command and the policy exactly when that command is not empty, holds no tab and no line terminator and neither starts nor ends with a quote |
| GoalWorkflow.GoalStore.CreateGoal | src/autoresearch/goal.ts:136-168 | Creation writes rubric, empty ledger, mission and first event, in that order; the errors come in order; the completion file is left alone |
| GoalWorkflow.GoalStore.BuildHandoff | src/autoresearch/goal.ts:306-313 | A handoff starts a created goal and is logged |
| GoalWorkflow.GoalStore.RecordVerdict | src/autoresearch/goal.ts:193-228 | A verdict updates mission, completion and ledger together, and is refused on a complete goal and without evidence |
| GoalWorkflow.GoalStore.CompleteGoal | src/autoresearch/goal.ts:230-256 | Completion writes mission and ledger as the modelled command does, or fails with its error and writes nothing |
| GoalRuns.StepKeeps | src/autoresearch/goal.ts:136-313 | Every command keeps mission, completion, rubric and ledger consistent |
| GoalRuns.StatusAgrees | src/autoresearch/goal.ts:193-256 | In every run, forced recreation included: status and stored verdict agree, a complete goal has a stored pass and a completion time, and the kinds of the ledger's events alone replay to the status |
| GoalRuns.CompletionVouchedIff | src/autoresearch/goal.ts:230-256 | In every run a completion event has a pass with the same evidence as its latest earlier validation exactly when the ledger shows any validation before it |
| GoalRuns.CompletionsVouched | src/autoresearch/goal.ts:230-256 | Unless a goal is recreated, every completion event is vouched for |
| GoalRuns.CompleteAbsorbs | src/autoresearch/goal.ts:193-256 | Unless it is recreated, a complete goal stays complete, its verdict is not replaced and its ledger only grows |
| GoalRuns.RecreatedCompletesIff | src/autoresearch/goal.ts:136-168 | A goal recreated by force completes at once exactly when the old goal's verdict was a pass, and no validation in its ledger vouches for it |
| GoalRuns.StalePassCompletes | src/autoresearch/goal.ts:136-256 | Create, pass, recreate, complete: the new goal is complete on the old verdict, whatever the texts |
| GoalOutcomes.CreateIff | src/autoresearch/goal.ts:136-168 | After any run, creating succeeds exactly when topic and rubric are not blank and nothing is there or it is forced; what it writes, and that the completion file stays |
| GoalOutcomes.HandoffIff | src/autoresearch/goal.ts:306-313 | After any run, a handoff succeeds exactly when a mission is there; it starts a created goal and no other |
| GoalOutcomes.VerdictIff | src/autoresearch/goal.ts:193-228 | After any run, a verdict is recorded exactly when a mission is there, it is not complete and there is evidence; what it stores and logs |
| GoalOutcomes.CompleteIff | src/autoresearch/goal.ts:230-256 | After any run, completing succeeds exactly when a mission is there, the stored verdict is a pass and the snapshot agrees; otherwise the error says the first that is missing and no file changes |
| GoalOutcomes.OnlyReconciledCompletes | src/autoresearch/goal.ts:230-256 | In every run without a snapshot that agrees no goal is complete and no completion is logged |

## Left out

- LeaseGuarantees.ConcurrentSafety: runs with a stale lock takeover are outside it, because the takeover is not safe; crashes between taking and removing the lock, several omx roots on one server and malformed lease files are not modelled either
- LeaseAtomic.VerdictExact: a read of `/proc` that fails for a living process is not modelled; tmux commands are taken to succeed and lease ids to be unique
- ProcStat.StartTicksRoundTrip: numbers that JavaScript's Number reads but decimal digits do not spell, such as `1e3`, are not modelled
- ProcessTree.ResolveProtectedRootPid: requires that the walk ends, because on a cycle of parents above pid 1 with no Codex process the code does not return
- ProcessTree.HasAncestorMatching: the patterns that recognise Codex, OMX launch and MCP server commands are flags of the process, not regular expressions
- Kill.CleanupOmxMcpProcesses: requires distinct positive pids, as a process listing has them; console output is not modelled
- Supervisor.Supervision.ProcessCandidate: writing files and git commands are taken to succeed; a score is a real number, which a JSON number is up to rounding; the results table, the mode state and the check-then-write lock of active runs are not modelled
- SupervisorRuns.LedgerIsChain: a stop that arrives while an iteration runs, and would be overwritten by the manifest in memory, is not modelled
- ShellQuote.PaneCommandReads: the prologue that sources an rc file is a constant and is not tokenized
- TopLevelToml.UpsertTopLevelTomlString: multi-line TOML strings and arrays are lines like any other, as they are in the code
- SandboxContract.ParseSimpleYamlFrontmatter: a key such as `__proto__`, which a JavaScript object treats specially, is an ordinary key; lower-casing is modelled on ASCII letters
- GoalWorkflow.GoalStore.CompleteGoal: the comparison of the Codex goal snapshot with the mission is a flag; a crash between the file writes of one command and a malformed mission file are not modelled
- Process discovery on Windows, PowerShell quoting, stale temporary directories, and the HUD, hooks, notifications and doctor checks around these cores
- The demo's scores and weighted costs, its other demos and the marketplace text upsert: floating point, or easy once the table editor is done
