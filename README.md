# tsh job-control shell: job list, tokenizer, bg/fg and child-status updates

This project models the sequential core of `tsh.c`, a small job-control
shell, and proves properties of the model:

- **The job list** (modules `Jobs` and `JobTable`): MAXJOBS (16) slots, each
  holding a pid, a job ID, a state (UNDEF, FG, BG, ST) and a command line,
  plus the `nextjid` counter. `JobTable.JobList` is a class over an array of
  slots. Its methods are `clearjob`, `initjobs`, `maxjid`, `addjob`,
  `deletejob`, `fgpid`, `getjobpid`, `getjobjid`, `pid2jid` and `listjobs`,
  written as the same loops the shell runs. Each is proved equal to a pure
  function of module `Jobs`, and the properties are proved about those
  functions.
- **The tokenizer** (module `Parse`): `parseLine` and `parseArgc`. They walk
  a pointer over a copy of the line whose newline was turned into a blank.
  The pointer is modelled as the rest of the buffer from it on.
- **The bg and fg built-ins** (module `BgFg`): `hasDisallowedChars` and
  `do_bgfg`. These check the arguments, look the job up by `%jobid` or by
  pid, and change its state.
- **Reaping and stopping** (module `Signals`): the job-list updates made by
  `waitfg`, `sigchld_handler` and `sigtstp_handler` for what `waitpid`
  reports.
- **Program path resolution** (module `Launch`): the child branch of `eval`
  prefixes `/bin/` to a command name without a '/'.
- Module `Decimal` models `atoi` and the `%d` conversion, which the bg/fg
  arguments and `listjobs` rely on.

Some values in the source are out-parameters or global state:

- A job pointer (`struct job_t *`) becomes the slot index, wrapped in
  `Option`: `None` plays the part of NULL.
- `argv` becomes a sequence of strings whose length is `argc`.
- What `listjobs` prints becomes the sequence of lines it returns.
- What `waitpid` reports is a parameter: a `ChildStatus` (exited, killed by
  a signal, stopped by a signal, none of these) for each pid it returns.

## Model

| member | source | states |
|---|---|---|
| Decimal.IntToString | tsh.c:850 | `%d` prints a non-empty text that starts with '-' exactly for a negative number, followed by digits only |
| Decimal.Atoi | tsh.c:473-482 | `atoi` reads 0 from text that, after leading white space, is empty or starts with neither a digit nor a sign, and never a negative number without a '-' |
| Decimal.AtoiOfDigits | tsh.c:473 | `atoi` of a non-empty run of digits followed by a non-digit (or nothing) is the value of the digits |
| Decimal.AtoiOfNegatedDigits | tsh.c:473 | `atoi` of '-' and a run of digits followed by a non-digit (or nothing) is minus their value |
| Decimal.AtoiOfIntToString | tsh.c:473 | `atoi` reads back the job ID that `%d` printed, whatever non-digit text follows it |
| Jobs.FirstFree | tsh.c:758-759 | the lowest slot with pid 0, or none when every slot is taken |
| Jobs.FindPid | tsh.c:805-814 | `getjobpid`: the first slot in table order holding the pid; none when pid < 1 or no slot holds it |
| Jobs.FindJid | tsh.c:817-827 | `getjobjid`: the first slot in table order holding the job ID; none when jid < 1 or no slot holds it |
| Jobs.FgPid | tsh.c:795-802 | `fgpid`: 0 when no slot is FG; otherwise the pid of the first FG slot; a non-zero result is the pid of an FG slot |
| Jobs.Pid2Jid | tsh.c:830-841 | `pid2jid`: 0 when pid < 1 or absent; otherwise the job ID of the first slot holding the pid |
| Jobs.MaxJid | tsh.c:740-748 | `maxjid`: at least 0, no job ID above it, and either 0 or the job ID of some slot |
| Jobs.NextJid | tsh.c:762-764 | from a counter that is not negative, the counter `addjob` leaves lies in 1..MAXJOBS; on 0..MAXJOBS it steps cyclically through 1, 2, ..., MAXJOBS, 1 |
| Jobs.SetState | tsh.c:516 | a state write changes the state of slot i to the new one, keeps its pid, job ID and command line, and leaves every other slot and the counter as they were |
| Jobs.Add | tsh.c:751-774 | `addjob` returns 1 or 0. It returns 0 exactly when pid < 1 or no slot is free, and then the list is unchanged. On 1 it fills the lowest free slot with the pid, state, command line and old `nextjid`, advances the counter with wrap-around, and leaves every other slot as it was |
| Jobs.Delete | tsh.c:777-792 | `deletejob` returns 0 or 1 |
| Jobs.DeleteSpec | tsh.c:777-792 | `deletejob` returns 1 exactly when pid >= 1 and some slot holds it. It then clears the first such slot and sets `nextjid` to `maxjid` + 1 of what remains, so every job ID is below the counter. On 0 the list is unchanged |
| Jobs.StateLabel | tsh.c:851-864 | every state word `listjobs` prints, the internal-error message included, ends with a blank before the command line |
| Jobs.JobLine | tsh.c:850-865 | a listed line starts with '[' and ends with the job's command line as typed |
| Jobs.PerOccupied | tsh.c:844-868 | the walk over the slots gives at most one entry per slot |
| Jobs.Listing | tsh.c:844-868 | `listjobs` prints at most one line per slot |
| Jobs.OccupiedSlotsSpec | tsh.c:848-849 | the indices `listjobs` visits with pid != 0 are every occupied slot and only those, each once, in increasing slot order |
| Jobs.PerOccupiedIndexed | tsh.c:848-866 | on any list, free slots anywhere, the k-th entry the walk gives is the entry for the k-th occupied slot, and there is one entry per occupied slot |
| Jobs.ListingOfSlots | tsh.c:844-868 | `listjobs` on any list prints exactly one line per occupied slot and none for a free one, in slot order: the k-th line is the line of the k-th occupied slot |
| Jobs.DeletedJobNotListed | tsh.c:777-792 | after `deletejob` of a pid no other slot holds, no listed line belongs to a slot holding that pid |
| Jobs.JobLineStartsWithJid | tsh.c:850 | a listed line starts with '[' and the job ID can be read back from it |
| Jobs.EmptyIsWellFormed | tsh.c:732-737 | the list after `initjobs` with `nextjid` = 1 satisfies every invariant |
| Jobs.AddPreserves | tsh.c:751-774 | `addjob` keeps the list well formed; it keeps pids distinct for a new pid, and at most one FG job when it adds none beside an existing one |
| Jobs.AddKeepsJidsFresh | tsh.c:762-764 | before the counter wraps, `addjob` hands out a job ID no live job holds and keeps every ID below the counter |
| Jobs.WrapRepeatsJid | tsh.c:762-764 | after the wrap to 1, adding a job while job 1 is still live gives two live jobs job ID 1 |
| Jobs.WrapResetsCounter | tsh.c:762-764 | a successful `addjob` with the counter at MAXJOBS or more leaves it at 1 |
| Jobs.RecountPassesMaxJobs | tsh.c:751-792 | the recount of `deletejob` undoes the wrap: with all MAXJOBS slots filled from empty (counter back at 1), deleting the first job sets the counter to MAXJOBS + 1 and the next `addjob` hands out job ID MAXJOBS + 1 |
| Jobs.DeletePreserves | tsh.c:777-792 | `deletejob` keeps well-formedness, distinct pids and job IDs, at most one FG job, and job IDs below the counter |
| Jobs.SetStatePreserves | tsh.c:498-537 | changing one live job's state keeps the pids, job IDs and well-formedness; it keeps at most one FG job when the new state is not FG, or when there was no FG job |
| Jobs.NoForegroundJob | tsh.c:795-802 | in a well-formed list, `fgpid` returns 0 only when no slot is FG |
| Jobs.AddAtFirstFree | tsh.c:758-764 | `addjob` of a positive pid puts it in the first free slot with the old counter as its job ID, and advances the counter |
| Jobs.AddInOrder | tsh.c:751-774 | one more background job added to a list filled in launch order goes into the next slot with the next job ID, so the list stays filled in launch order |
| Jobs.AddAllFromEmpty | tsh.c:751-774 | adding n <= MAXJOBS background jobs to an empty list fills slots 0..n-1 in order with job IDs 1..n, leaves the rest cleared, and leaves the counter at n + 1 (1 after MAXJOBS) |
| Jobs.PerOccupiedSkipsFree | tsh.c:847 | cleared slots at the end print nothing |
| Jobs.PerOccupiedOfOccupied | tsh.c:844-868 | a list of occupied slots prints one line per slot, in slot order |
| Jobs.BackgroundJobsListedInOrder | tsh.c:844-868 | launching jobs in the background and then listing prints exactly those jobs as "[i] (pid) Running cmdline", in launch order |
| JobTable.JobList.constructor | tsh.c:57 | the list starts with every slot cleared and `nextjid` = 1 |
| JobTable.JobList.ClearJob | tsh.c:724-729 | `clearjob` clears slot i (pid 0, job ID 0, UNDEF, empty command line) and no other |
| JobTable.JobList.InitJobs | tsh.c:732-737 | `initjobs` clears every slot |
| JobTable.JobList.MaxJid | tsh.c:740-748 | the loop computes `Jobs.MaxJid` of the slots |
| JobTable.JobList.AddJob | tsh.c:751-774 | the in-place `addjob` gives the slots, counter and result `Jobs.Add` describes |
| JobTable.JobList.DeleteJob | tsh.c:777-792 | the in-place `deletejob` gives the slots, counter and result `Jobs.Delete` describes |
| JobTable.JobList.FgPid | tsh.c:795-802 | the loop returns `Jobs.FgPid` of the slots |
| JobTable.JobList.GetJobPid | tsh.c:805-814 | the loop returns `Jobs.FindPid` |
| JobTable.JobList.GetJobJid | tsh.c:817-827 | the loop returns `Jobs.FindJid` |
| JobTable.JobList.Pid2Jid | tsh.c:830-841 | the loop returns `Jobs.Pid2Jid` |
| JobTable.JobList.ListJobs | tsh.c:844-868 | the loop prints `Jobs.Listing` of the slots |
| Parse.IndexOf | tsh.c:327 | `strchr`: the first position of the character, or none when it does not occur |
| Parse.SkipSpaces | tsh.c:316-317 | the skip loop stops at the first non-blank or at the end, and everything it passed is a blank |
| Parse.Delimit | tsh.c:321-327 | bounds only: the word's start lies within the buffer and its delimiter, when found, inside what follows |
| Parse.DelimitChoice | tsh.c:321-327 | after an opening quote the word starts one character on and ends at the next quote; any other word starts where it is and ends at the next blank |
| Parse.Buffer | tsh.c:314-315 | no contract of its own; Parse.BufferReplacesNewline states what the copy holds |
| Parse.Scan | tsh.c:329-343 | no contract of its own; Parse.ScanWord, Parse.ScanQuoted, Parse.ScanBound and Parse.DelimitChoice state what the word loop gives |
| Parse.Words | tsh.c:314-343 | no contract of its own; Parse.BuildArgv, Parse.WordsOfJoinedLine, Parse.WordsOfBackgroundLine and Parse.BlankLineHasNoWords state what the tokenizer gives |
| Parse.BufferReplacesNewline | tsh.c:314-315 | the local copy keeps the line's length and every character but the last, which becomes a blank |
| Parse.ScanBound | tsh.c:314-343 | each word uses up at least its delimiter, so the walk finds no more words than the buffer has characters |
| Parse.NextWord | tsh.c:334-341 | the skip-then-find-delimiter step leaves the pointer where the words still to come are those of the skipped text |
| Parse.BuildArgv | tsh.c:314-343 | the pointer walk collects exactly the words of the line, the '&' word included |
| Parse.SplitBackground | tsh.c:345-354 | a line with no words gives 1 and no words. A last word starting with '&' gives 1, and putting that word back gives all the words. Otherwise it gives 0 and all the words |
| Parse.ParseLine | tsh.c:306-355 | `parseLine` returns the flag and words `Parse.SplitBackground` gives for the words of the line |
| Parse.ParseArgc | tsh.c:362-411 | `parseArgc`: the count equals the number of words returned, which are those `Parse.SplitBackground` keeps: none for a blank line, all but a trailing '&' word, and all words otherwise |
| Parse.BlankLineHasNoWords | tsh.c:345-347 | a line of blanks before its newline has no words |
| Parse.ScanWord | tsh.c:329-341 | a plain word followed by a blank is read; the run of blanks after it is skipped and scanning resumes at the next word |
| Parse.ScanQuoted | tsh.c:321-324 | a quoted span is one word, blanks included, without its quotes |
| Parse.WordsOfJoinedLine | tsh.c:314-343 | round trip: plain words joined by blanks, with a newline at the end, tokenize back to exactly those words |
| Parse.WordsOfBackgroundLine | tsh.c:350-352 | a line ending in the word "&" tokenizes to its words and then "&", which marks it as a background job |
| BgFg.HasDisallowedChars | tsh.c:548-559 | `hasDisallowedChars` returns 1 exactly when the string holds an ASCII letter, 0 otherwise |
| BgFg.Target | tsh.c:471-491 | a `%N` argument finds a slot holding job ID `atoi(N)` >= 1, any other argument a slot holding pid `atoi(arg)` >= 1; none means no slot holds that ID or pid, or it is below 1 |
| BgFg.Transition | tsh.c:498-537 | bg always leaves the job BG. fg makes an ST or BG job FG and leaves an FG job as it is. SIGCONT is sent exactly when the job was ST. The shell waits exactly when fg moved the job into FG |
| BgFg.ChangeState | tsh.c:469-537 | the state change keeps the number of slots |
| BgFg.ChangeJobState | tsh.c:469-537 | the in-place lookup and state change give the slots and outcome of `BgFg.ChangeState`. `%N` looks up job ID N, anything else a pid. A miss gives "no such job" or "no such process" and leaves the list unchanged |
| BgFg.AsWritten | tsh.c:456-462 | as written: the usage error exactly when there is no argument or the command name holds a letter, and then the list is unchanged |
| BgFg.Intended | tsh.c:456-462 | as intended: the usage error exactly when there is no argument or the argument holds a letter, and then the list is unchanged |
| BgFg.DoBgFg | tsh.c:451-542 | `do_bgfg` as written: this is `BgFg.AsWritten`, with the letter check on `argv[0]` |
| BgFg.DoBgFgCorrected | tsh.c:451-542 | `do_bgfg` with the letter check on `argv[1]`: this is `BgFg.Intended` |
| BgFg.AsWrittenAlwaysRejects | tsh.c:456-462 | as written, `bg` and `fg` always report the usage error and leave the list unchanged, whatever their argument |
| BgFg.IntendedFindsJobById | tsh.c:471-477 | with the corrected check, `bg %N` / `fg %N` for a listed job ID N reaches that job and applies the transition |
| BgFg.IntendedUnknownPid | tsh.c:479-489 | with the corrected check, a pid no job holds gives "no such process" and leaves the list unchanged |
| BgFg.BgOnBackgroundJobChangesNothing | tsh.c:527-537 | `bg` on a BG job changes nothing and sends no signal |
| BgFg.ForegroundAssertionHolds | tsh.c:504-518 | whenever fg is about to wait for the job, `fgpid` is positive, so the assertions on its result hold |
| BgFg.ChangeStatePreserves | tsh.c:469-537 | bg/fg keep the list well formed with its pids and job IDs distinct. Run with no FG job, they leave at most one |
| Signals.ApplyStatus | tsh.c:573-597 | no pid arrives in or moves between slots. Exit or kill removes the pid from every slot (pids distinct). A stop marks only that pid's slot ST. Any other status changes nothing |
| Signals.Reap | tsh.c:621-651 | the handler loop keeps the number of slots; it changes nothing when it handles no result or when every result is none of exited, killed and stopped |
| Signals.Handled | tsh.c:621 | the handler loop handles the results up to the first that is not a positive pid |
| Signals.ForegroundJobIsListed | tsh.c:697-703 | the pid `fgpid` returns is found by `getjobpid` |
| Signals.Tstp | tsh.c:697-705 | with no foreground job ctrl-z changes nothing; it never adds or moves a pid |
| Signals.HandleStatus | tsh.c:625-650 | the in-place status branch gives the list `Signals.ApplyStatus` describes |
| Signals.WaitFg | tsh.c:564-603 | `waitfg`: a failed `waitpid` leaves the list unchanged; otherwise the reported status is applied, as `Signals.ApplyStatus` says, to the pid `waitpid` returned, which for -1 may be any child |
| Signals.SigchldHandler | tsh.c:616-655 | `sigchld_handler` applies every reported status in order, up to the first result that is not a pid (`Signals.Reap`) |
| Signals.SigtstpHandler | tsh.c:690-713 | `sigtstp_handler` returns the FG pid (0 when there is none) that SIGTSTP goes to, and marks that job ST (`Signals.Tstp`) |
| Signals.ApplyStatusPreserves | tsh.c:625-650 | handling one status keeps every invariant of the list |
| Signals.ReapPreserves | tsh.c:621-651 | however many children the handler reaps, every invariant of the list holds afterwards |
| Signals.ReapShrinks | tsh.c:621-651 | the handler never adds a job or moves one to another slot |
| Signals.ReapRemovesFinished | tsh.c:621-651 | every child the handler reaps as exited or killed is gone from the list when it returns |
| Signals.ReapKeepsUnreported | tsh.c:621-651 | the converse: a job whose pid no handled result reports as exited or killed is still in its slot when the handler returns, so a slot is freed only by reaping its job |
| Signals.TstpStopsForeground | tsh.c:697-705 | after ctrl-z no job is FG, the former FG job is ST, and every other slot is unchanged |
| Signals.StopOfForegroundJob | tsh.c:588-593 | a stop reported for the FG job has the same effect on the list as ctrl-z |
| Launch.ProgramPath | tsh.c:245-258 | the path always holds a '/' and ends with the command name; a name with a '/' is used as it is |
| Launch.ResolveProgramPath | tsh.c:236-258 | the scan sets the flag exactly when the name holds a '/'; a name without one becomes "/bin/" + name |
| Launch.ProgramPathIdempotent | tsh.c:256-258 | resolving a resolved path changes nothing |
| Launch.ProgramPathInBin | tsh.c:256-258 | a name without '/' becomes "/bin/" followed by the name |

## Left out

- OS calls (`fork`, `execve`, `setpgid`, `getpgrp`, `kill`, `waitpid`) are not modelled. Their results are parameters, a `ChildStatus` for each pid `waitpid` returns. The signals `kill` sends are part of the bg/fg outcome (`continued`).
- Asynchronous signal delivery and the installation of handlers (`Signal`, `sigaction`) are concurrency and foreign calls. The model gives the effect of one handler run on the list, run to completion.
- The `sig == SIGCHLD` / `sig == SIGTSTP` guards of the handlers are left out: each handler is modelled for its own signal.
- `sigint_handler` only forwards the signal and prints; it does not touch the list.
- Not modelled, because they are the I/O and termination of the program: `main` with `getopt` and `fgets`, `usage`, `unix_error`, `app_error`, `sigquit_handler` and `exit`.
- `printf`, `fflush`, `debugLog` and the `verbose` messages are output only. `listjobs` returns its lines instead of printing them.
- `getNextPGID` is never called.
- `builtin_cmd` and the dispatch in `eval` are not modelled. This covers the blank-line test, the fork branch, and `addjob` plus `waitfg` for foreground jobs. Only the path rule of the child branch is part of this model.
- Signals.ApplyStatus: the stop branches of `waitfg` and `sigchld_handler` and the lookup in `sigtstp_handler` dereference `getjobpid` without a NULL check. The model requires the pid to be in the list (`CanApply`; for ctrl-z this is proved) and does not model the crash.
- The MAXLINE and MAXARGS buffer bounds of `strcpy` and `sprintf` are not modelled: lines are assumed to fit, and `cmdline` is assumed non-empty for the tokenizer. Lines are also assumed free of NUL characters, which would end the C string early.
- The tokenizer's `'\0'` writes into the buffer are modelled as taking the word as a slice. The NULL that ends `argv` is the end of the sequence.
- The job state in C is an `int`. The model keeps it to the four named states, so the default branch of `listjobs` is reached only by UNDEF.
- Jobs.NextJid: `int` overflow of `nextjid` and of `atoi` is not modelled. Integers are unbounded. The counter is not bounded by MAXJOBS + 1: `deletejob` recounts it from the job IDs left, so a full list that keeps losing and gaining jobs hands out ever larger job IDs (`Jobs.RecountPassesMaxJobs` shows the first step).
- Decimal.AtoiOfIntToString: `atoi` is modelled for numerals that fit in an `int`; its undefined behaviour on overflow is left out.

## Findings

| source | as written | input that shows it | evidently intended | confidence | as-written member | corrected member |
|---|---|---|---|---|---|---|
| tsh.c:456 | the letter check is applied to `argv[0]`, the command name, which is "bg" or "fg" and always holds a letter | `fg %1` with job 1 in the list: prints "fg command requires PID or %jobid argument" and leaves the list unchanged | apply the check to the argument `argv[1]`, so that `%N` and pid arguments reach the lookup | high; not executed | BgFg.DoBgFg with BgFg.AsWrittenAlwaysRejects | BgFg.DoBgFgCorrected with BgFg.IntendedFindsJobById and BgFg.IntendedUnknownPid |
