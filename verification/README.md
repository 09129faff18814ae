# Proofs about the fleet brain

The brain of the box fleet mirrors job logs, rewrites configuration, adopts and repairs
boxes, rolls out releases and raises alerts. Its hard code is a handful of small protocols
and text transformations that have to agree with each other. This project models them in
Dafny and proves what they promise, over every input and every run. The environment (boxes,
clocks, other processes, the network) is arbitrary: its answers are parameters.

Check everything with `dafny verify dfyconfig.toml`.

| file | what it models |
|---|---|
| `Wrappers.dfy`, `Text.dfy` | the optional value; trimming, splitting, joining, finding and numbers in strings |
| `ManagedRender.dfy`, `ManagedValidate.dfy` | merging and printing the managed configuration; the gate run on the printed text |
| `FleetBlock.dfy` | the two-pass awk rewrite of a `[fleet]` block, and the checker that judges the result |
| `AuthorizedKeys.dfy` | installing and removing tunnel keys, and the checker for them |
| `ShellQuote.dfy` | quoting of job commands, against the shell's own quoting rules (sections 2.2.1 and 2.2.2 of IEEE Std 1003.1, Shell Command Language) |
| `JobLog.dfy` | mirroring a log that its box truncates, with exact loss markers |
| `JobStore.dfy` | the jobs table, the budgeted poll pass, the life of a job |
| `ReconcileLock.dfy` | the mutex with timeouts in front of flock(2) |
| `Discover.dfy`, `DiscoverRun.dfy` | adopt and repair: one mutation slot, time budget, markers, backoff |
| `Upgrade.dfy` | verifying a deploy, the canary-first pass, what it leaves on record |
| `Divergence.dfy` | file-against-store findings, their audit trail and notices |
| `Alerts.dfy` | box-reported conditions, the alert throttle, the asleep digest |
| `Versions.dfy`, `LeaseChoice.dfy` | version comparison, and which box a lease gets |
| `MapLimit.dfy` | the bounded-concurrency map |

Code that the repository writes as loops over changing state is a method or a class here.
Its `ensures` ties the new state to a function of the old one, and the properties are
lemmas about that function or about runs of it.

## Where the code does less than it says

These are facts about the code. For each the project proves an input that shows it and the
condition under which the promise does hold.

- A managed line such as `[a<CR>=b]` is an assignment when read, but prints as `[a = b]`, a
  table header (`PhantomHeaderWitness`). Re-reading the merged text gives the merged list
  exactly when there is no such entry and the first table is not the print sentinel U+0002
  (`RereadGivesTheMergedList`). The bytes of a merged text can stay the same although the list
  changes (`BytesStayListChanges`); `FixedPointsAreCanonical` says exactly which texts a merge
  leaves as they are.
- A first table U+0002 prints without a header and so slips past the validator
  (`SentinelTablePasses`). What passes is stated without exception in `ValidationIsSemantic`.
- U+0001 inside names can give two pairs one id, and one is lost (`SeparatorCollision`). Every
  assigned pair is kept exactly when no two share an id (`MergeIsLastWins`).
- The awk rewriter and the checker trim different white space. A form feed in front of a
  section header makes the checker reject what the rewriter just wrote (`FormFeedWitness`).
  `HarmlessIsExact` says exactly which lines can do that, `SteadyIsExact` exactly which
  lines make a second rewrite differ from the first.
- A box chooses the comment of its own key, and enrolment accepts any. If it quotes another
  box's port restriction, enrolling that box drops the line of the first
  (`QuotedPortLosesALine`). The file has one line for each live box all the time exactly if no
  install or removal finds its port or its key in another's line (`FileIsExact`).
- Status and log are fetched in two calls. If the log is truncated between them, what is
  appended may not continue the mirrored generation. The mirror stays faithful exactly when
  it does, or nothing is appended (`SplitPollLaw`). If not, it may be spliced without a trace
  (`SplicedInSilence`); the next marker is clamped exactly when the generations in between
  hold fewer bytes than the row's offset (`ClampExactly`, `SplicedBySplitPoll`). With both
  calls as one step neither happens (`MirrorIsFaithful`, `ClampNeverFires`).
- `bumpRepairPending` ignores the age of the marker it increments. A box that lapsed from
  membership and comes back incoherent is due at once, and adopt may have spent the slot
  (`LapsedBoxLosesTheSlot`). `DueButNotYielded` says exactly when adopt does not yield to a due
  box.
- The size cap of the backoff ledger forgets records inside their windows (`CapForgets`); while
  it does not bite the schedule holds (`FailuresAreApart`).
- The repair reserve is conditional: the first repair check can start exactly when listing
  and probing together left 20 s of the pool (`TimeBounds`).
- `compareVersions` is no order once words and numbers meet (`MixedIsNotTransitive`). Three
  versions are ordered exactly when they are not knotted (`VersionsOrderedExactly`). It orders
  `1` before `1.0`, which `renameVerGe` calls equal (`ShortVersionsDiffer`);
  `TextsAgreeExactly` says on which dotted numbers the two agree.
- A canary that is already in sync gates nothing, and a canary named twice is deployed once
  (`CanaryGates`, `OrderIsPermutation`).

## Model

| member | source | states |
|---|---|---|
| ManagedRender.MergeManaged | fleet/src/managed/render.ts:27-70 | the two loops over all input files print exactly the canonical text of the merged list |
| ManagedRender.ScanFile | fleet/src/managed/render.ts:36-57 | reading one more file extends what the five loop variables hold by that file's assignments, the table in force carried over |
| ManagedRender.MergeIsLastWins | fleet/src/managed/render.ts:22-56 | the merged list never repeats an id; it has every assigned pair if and only if no two assigned pairs share an id, and then with its last value, in first-seen order |
| ManagedRender.SeparatorFreeIsEnough | fleet/src/managed/render.ts:34-48 | no two pairs share an id if no table and no key holds U+0001 |
| ManagedRender.ClassifyIsProper | fleet/src/managed/render.ts:38-47 | what a line can yield: trimmed names without newline or `=`, and never a key that reads as a comment |
| ManagedRender.EntryLineReads | fleet/src/managed/render.ts:67 | a printed entry reads back as itself unless it is a phantom header |
| ManagedRender.RereadGivesTheMergedList | fleet/src/managed/render.ts:27-70 | reading the merged text gives the merged list if and only if no merged entry prints as a header and the first table is not the sentinel |
| ManagedRender.HeaderIsLost | fleet/src/managed/render.ts:59-69 | a printed list never reads back longer, and shorter as soon as one entry line is a header |
| ManagedRender.MergeIsIdempotent | fleet/src/managed/render.ts:6-7 | merging a merged text gives the same list if and only if no merged entry prints as a header and the first table is not the sentinel; then it changes no byte |
| ManagedRender.FixedPointsAreCanonical | fleet/src/managed/render.ts:6-7 | for every text: a merge changes no byte if and only if it is empty, or each header stands as printed, over an assignment, and changes the table, each assignment stands as printed, and no id is assigned twice; these are the printed lists that mean themselves |
| ManagedRender.MergedTextStaysExactly | fleet/src/managed/render.ts:6-7 | for every merge: merging again changes no byte if and only if the printed lines are of that form |
| ManagedRender.BytesStayListChanges | fleet/src/managed/render.ts:40-67 | an input whose merged text keeps its bytes under a second merge and changes its list |
| ManagedRender.PlainInputsRoundTrip | fleet/src/managed/render.ts:3-8 | inputs without stray carriage returns and the two control characters round-trip and are a fixed point |
| ManagedRender.PhantomHeaderWitness | fleet/src/managed/render.ts:40-47 | an input line that is read as an assignment and printed as a header |
| ManagedRender.LonePhantomVanishes | fleet/src/managed/render.ts:27-70 | a merged text that holds only such a line is empty after the next merge |
| ManagedRender.SeparatorCollision | fleet/src/managed/render.ts:34-48 | an input text with U+0001 that assigns two pairs and keeps one, with the value of the other |
| ManagedRender.SentinelTableIsLost | fleet/src/managed/render.ts:60-66 | a first table equal to the sentinel loses its header and its name |
| ManagedRender.MergeOfConcatenation | fleet/src/managed/render.ts:36-43 | merging a list of files is merging their newline-joined concatenation |
| ManagedValidate.ValidateManaged | fleet/src/managed/validate.ts:46-79 | the loop returns ok exactly if the text has no reason for refusal, and all reasons in order |
| ManagedValidate.ValidationIsSemantic | fleet/src/managed/validate.ts:46-79 | for all inputs: the rendered text passes the gate if and only if no merged pair prints as a header and each has an allowed table and key, or stands in a leading run of the sentinel table with a key |
| ManagedValidate.TablelessKeyIsRefused | fleet/src/managed/validate.ts:52-60 | a key before any table is always refused, because it prints under an empty table |
| ManagedValidate.RenderedTextParses | fleet/src/managed/validate.ts:61-65 | a rendered text is never refused for an unparsable line |
| ManagedValidate.SentinelTablePasses | fleet/src/managed/validate.ts:47-60 | an input text whose one pair is outside the allowed set and whose rendered text passes |
| ManagedValidate.ReasonsAreExact | fleet/src/managed/validate.ts:46-79 | for every text: each reason is given as often as there are lines that have it, read as header, setting or neither in the table in force there |
| ManagedValidate.BoxOverridesFleet | fleet/src/managed/render.ts:73-86 | the box file is read after the fleet file and overrides it pair by pair: a merged pair has its last value of the box file if assigned there, else its last one of the fleet file |
| FleetBlock.RewriteFleetBlock | fleet/src/commands/enroll.ts:84-127 | the two awk passes compute the rewrite of the lines |
| FleetBlock.RewriteIsIdempotent | fleet/src/commands/enroll.ts:56-136 | rewriting twice gives the same lines, with any number of `[fleet]` sections, commented and top-level keys, on every file of steady lines |
| FleetBlock.SteadyIsExact | fleet/src/commands/enroll.ts:86-97 | a line can stand in any file of plain lines without a second rewrite changing it if and only if it is no header, other than `[fleet]`, that only the first pass sees |
| FleetBlock.PassTwice | fleet/src/commands/enroll.ts:97-127 | a second pass that finds all wanted keys leaves every line of the first one's output alone |
| FleetBlock.RewriteIsCoherent | fleet/src/reconcile/discover.ts:228-247 | on every file of harmless lines the rewritten block names the wanted vps and index |
| FleetBlock.HarmlessIsExact | fleet/src/reconcile/discover.ts:228-247 | a line can stand in any file of plain lines without the checker rejecting the rewrite if and only if both see the same header or neither does, and the checker sees no other vps or box_index in it than the rewriter or the wanted one |
| FleetBlock.CheckerMayDiffer | fleet/src/reconcile/discover.ts:232-245 | the ways in which checker and rewriter can read a line differently |
| FleetBlock.PlainFilesAreFine | fleet/src/reconcile/discover.ts:223-227 | lines whose only white space is spaces and tabs are harmless and steady |
| FleetBlock.CarriageReturnIsFine | fleet/src/commands/enroll.ts:62 | so are they with a carriage return at the end |
| FleetBlock.RewriteKeepsTheRest | fleet/src/commands/enroll.ts:97-127 | all lines but active vps, box_index and port settings of `[fleet]` survive in order, and the settings are then exactly the wanted ones |
| FleetBlock.EachSettingOnce | fleet/src/commands/enroll.ts:97-127 | for every file: a wanted key without an active line in `[fleet]` has exactly one after the rewrite; one that has some keeps their number or gets one more; an unwanted one has none |
| FleetBlock.FirstSection | fleet/src/commands/enroll.ts:97-127 | the rewritten file is what is ahead of the first `[fleet]`, the header, its section rewritten, the keys still missing there, and the rest |
| FleetBlock.WhereASettingGoes | fleet/src/commands/enroll.ts:107-117 | a missing key goes directly below the first line that has it commented if the file gives it nowhere, and to the end of the section otherwise |
| FleetBlock.WithoutABlock | fleet/src/commands/enroll.ts:119-126 | a file without `[fleet]` is kept and gets the header, vps, box_index and a wanted port at its end |
| FleetBlock.WriterEstablishesChecker | fleet/src/commands/enroll.ts:56-136 | on files: a rewritten file of harmless lines passes the checker, and rewriting one of steady lines again changes no byte |
| FleetBlock.FleetBlockCoherent | fleet/src/reconcile/discover.ts:228-247 | the checker's loop decides coherence of the block |
| FleetBlock.PassesAgree | fleet/src/commands/enroll.ts:87-97 | both passes see the same section headers and keys on lines with plain white space |
| FleetBlock.KeysAreSeen | fleet/src/commands/enroll.ts:62-97 | however it is indented and spaced, a key before an equals sign is its setting for both passes, and behind a number sign the commented one |
| FleetBlock.CheckerAgrees | fleet/src/reconcile/discover.ts:232-245 | the checker sees on such a line what the rewriter sees |
| FleetBlock.QuotesComeOff | fleet/src/reconcile/discover.ts:242 | the checker takes two quotes off a value if and only if no line terminator stands between them, and takes off nothing else |
| FleetBlock.FormFeedWitness | fleet/src/reconcile/discover.ts:233-234 | a form feed before a section header makes the checker reject a freshly rewritten file |
| AuthorizedKeys.LineNamesPort | fleet/src/commands/enroll.ts:23-25 | a key line names its own port, and another if and only if the key's own text does |
| AuthorizedKeys.SupersededMeans | fleet/src/commands/enroll-wiring.ts:75-82 | an existing line is superseded exactly if it carries the new line's key or its port restriction |
| AuthorizedKeys.InstallEstablishesCheck | fleet/src/commands/enroll-wiring.ts:214-230 | whatever the file held, right after an install the check passes for that port and key |
| AuthorizedKeys.RemoveAuthorizedKeysLines | fleet/src/commands/retire.ts:88-106 | keeps, in order, exactly the non-empty lines that name neither the port nor the key, and counts the others |
| AuthorizedKeys.RemovalGoesByPortOrKey | fleet/src/commands/retire.ts:88-106 | with a stored word m: no line that is kept contains m or the port, every other non-empty line is kept, in order; for a stored text of several words m is the last |
| AuthorizedKeys.RemovalByPortAlone | fleet/src/commands/retire.ts:93-101 | without a stored key the lines of the port go and no others |
| AuthorizedKeys.BothNameTheKey | fleet/src/reconcile/discover.ts:189-211 | writer and checker find the same key material in a line |
| AuthorizedKeys.CoherentExactly | fleet/src/reconcile/discover.ts:199-211 | the check passes if and only if exactly one line names the port and its key material is that of the box, which is not empty |
| AuthorizedKeys.FileIsExact | fleet/src/commands/retire.ts:79-106 | over every run, for all keys that enrolment accepts: the file is the foreign lines in their order and one line for each live box after every step if and only if no step finds its port or key in the live line of another port |
| AuthorizedKeys.FileIsForeignPlusLive | fleet/src/commands/retire.ts:79-106 | so it is over every run of installs and removals whose lines carry neither another's port nor another's key |
| AuthorizedKeys.QuotedPortLosesALine | fleet/src/commands/enroll.ts:359-362 | a run of two installs with distinct ports and keys that leaves one line |
| AuthorizedKeys.LiveIsLastEvent | fleet/src/commands/enroll-wiring.ts:67-74 | a port has one live line exactly if its last event was an install, that install's, and none otherwise |
| ShellQuote.RemoteShellSeesTheArguments | fleet/src/jobs.ts:214-230 | the remote shell splits a job command into `sudo`, the program and the arguments, for all NUL-free arguments |
| ShellQuote.CommandsAreDistinct | fleet/src/jobs.ts:223-230 | no two argument lists make the same command |
| JobLog.Mirror | fleet/src/reconcile/job-tick.ts:229-284 | one mirror step: the new counters and what is appended to the file, marker, stop notice and bounded chunk |
| JobLog.RunKeeps | fleet/src/reconcile/job-tick.ts:229-284 | the accounting, no-splice and exact-marker invariant holds in every run of appends, truncations and polls |
| JobLog.Conservation | fleet/src/reconcile/job-tick.ts:241-252 | after any poll: bytes mirrored, bytes reported lost and bytes still to fetch are all the bytes the box ever produced |
| JobLog.LossIsExact | fleet/src/reconcile/job-tick.ts:244-251 | a marker's number is exactly the bytes that were never fetched, and is not negative |
| JobLog.ClampNeverFires | fleet/src/reconcile/job-tick.ts:249 | in every run of whole polls the clamp to zero is dead code |
| JobLog.MirrorIsFaithful | fleet/src/reconcile/job-tick.ts:223-227 | over every run: each stretch between markers is a prefix of one generation, markers count the gaps exactly and add up, the mirror stays within its bound plus one chunk, and the row is flagged truncated if and only if the file has a marker or the stop notice |
| JobLog.PollAdvances | fleet/src/reconcile/job-tick.ts:256-283 | a poll mirrors exactly the least of what is there, what the box sends and one fetch, and nothing once the mirror is full |
| JobLog.CatchesUp | fleet/src/reconcile/job-tick.ts:229-284 | once the box is silent, polls of c bytes clear the backlog by c bytes each, down to none, while the mirror has room |
| JobLog.SplitPollLaw | fleet/src/reconcile/job-tick.ts:172-191 | a poll whose fetch comes later, after anything the box did, keeps the mirror faithful if and only if nothing is appended or what is appended continues the generation of the status at the row's offset |
| JobLog.ClampExactly | fleet/src/reconcile/job-tick.ts:244-251 | after such a poll the next marker is clamped if and only if the generations in between hold fewer bytes than the row's offset |
| JobLog.SplicedBySplitPoll | fleet/src/reconcile/job-tick.ts:240-284 | a run in which the mirror is spliced and the clamp fires |
| JobLog.SplicedInSilence | fleet/src/reconcile/job-tick.ts:240-284 | a run in which the mirror is spliced and the next marker reports no loss |
| JobStore.FirstIsPolled | fleet/src/reconcile/job-tick.ts:149-156 | the first pollable job of a tick is always polled, whatever the budget |
| JobStore.LeftAloneMovesUp | fleet/src/store/jobs.ts:140-156 | a job that the budget deferred has strictly fewer jobs ahead of it after the tick |
| JobStore.PollFairness | fleet/src/reconcile/job-tick.ts:130-161 | a job is polled or closed within one tick more than there are jobs ahead of it |
| JobStore.EveryJobIsServed | fleet/src/reconcile/job-tick.ts:130-161 | with n open jobs on pollable boxes, any n consecutive ticks serve every one of them |
| JobStore.PassIsExact | fleet/src/reconcile/job-tick.ts:130-161 | for every due list: a job whose box is gone is lost as `box-gone`; one on a pollable box with n such jobs in front is polled if and only if n is 0 or the n-th reading of the clock is within the budget; every other row and mirror stays as it is |
| JobStore.DueOrder | fleet/src/store/jobs.ts:148-156 | in a due list never-polled jobs come first, then the longest unpolled, and of equals the first created |
| JobStore.PollFollowsTheWord | fleet/src/jobs.ts:153-189 | a poll leaves an open row in the state that the box names, without a reason; `lost:x` is a loss with reason x, `unknown` one without record, any other word one that names the word |
| JobStore.PollWrites | fleet/src/store/jobs.ts:234-273 | what a readable poll writes: the reported code and start where there are any and the stored ones otherwise, the first end, the log counters |
| JobStore.CreateWrites | fleet/src/serve/job-handlers.ts:372-436 | no row on a box with an open job; else one that is running from now if the box took the job, and lost from now if not, a busy slot for code 75 and a failed start for the rest |
| JobStore.StopWrites | fleet/src/serve/job-handlers.ts:481-513 | an open job whose box obeys is stopped, with code 143 and from now; any other stop changes nothing |
| JobStore.PrunesByTheEnd | fleet/src/store/jobs.ts:314-336 | over sound rows retention drops row and log of exactly the jobs that ended before the cutoff, and nothing if it is off |
| JobStore.PassIsSound | fleet/src/reconcile/job-tick.ts:140-157 | a poll pass keeps ended rows, open rows and the lease accounting |
| JobStore.CreateIsSound | fleet/src/serve/job-handlers.ts:372-436 | creation leaves one open job a box; a lease it acquired is held by the new open job, or given back on every failing way out |
| JobStore.RunIsSound | fleet/src/serve/job-handlers.ts:372-517 | in every run of handlers each lease that a job acquired is held by that open job or was given back, and not both; no other lease is given back, no two jobs acquired the same, and every mirror file has its row |
| JobStore.RunKeepsRowsOk | fleet/src/store/jobs.ts:234-288 | in every run of handlers a row has an end if and only if it is terminal, and a reason if and only if it is lost |
| JobStore.TerminalIsFinal | fleet/src/store/jobs.ts:239-288 | over every run a terminal row never changes again |
| JobStore.Store.PollJob | fleet/src/reconcile/job-tick.ts:172-211 | polls one job in place: row, mirror file and lease become those of the poll function |
| JobStore.Store.CreateJob | fleet/src/serve/job-handlers.ts:372-436 | when the box is asked the row is there, in `starting`; the table becomes that of the create function |
| JobStore.Store.RefreshJob | fleet/src/serve/job-handlers.ts:187-205 | polls unless the row is terminal |
| JobStore.Store.StopJob | fleet/src/serve/job-handlers.ts:481-513 | idempotent on a terminal row; otherwise stopped with code 143 and the own lease given back |
| JobStore.Store.DueJobs | fleet/src/store/jobs.ts:148-156 | all open jobs, each once, never polled first, then oldest poll, then oldest job |
| JobStore.Store.Poll | fleet/src/reconcile/job-tick.ts:130-161 | the budgeted loop in place is the poll pass |
| JobStore.Store.PruneJobs | fleet/src/store/jobs.ts:314-336 | deletes log by log, then row by row, exactly the terminal rows past the cutoff; after every single deletion each file has its row |
| ReconcileLock.RunKeepsInv | fleet/src/serve/lock.ts:131-232 | the protocol invariant holds over every interleaving of arrivals, timeouts, releases and other processes |
| ReconcileLock.MutualExclusion | fleet/src/serve/lock.ts:174-232 | at most one body runs, and it holds the flock |
| ReconcileLock.GrantsFollowArrival | fleet/src/serve/lock.ts:131-136 | the mutex is granted in arrival order, whoever timed out in between |
| ReconcileLock.NoSuccessorPastAHolder | fleet/src/serve/lock.ts:147-150 | however many waiters timed out, none is let past a call that is still inside |
| ReconcileLock.TurnComesWhenEarlierAreDone | fleet/src/serve/lock.ts:135-152 | a waiter's turn has come if and only if every earlier call is over: one that gave up blocks nobody |
| ReconcileLock.FinishedCallsAreClean | fleet/src/serve/lock.ts:203-231 | a call runs its body at most once; a finished one has closed its fd, let go of the flock and released its gate |
| ReconcileLock.NeverStuck | fleet/src/serve/lock.ts:137-152 | while a call is unfinished some call can take a step |
| ReconcileLock.OwnStepsFinish | fleet/src/serve/lock.ts:212-221 | every step of a call leaves less to do, but for a failed attempt before the deadline |
| ReconcileLock.OutcomesHaveCauses | fleet/src/serve/lock.ts:203-221 | over every run: a value or an error is the end of its body, and a call is busy only by a lock file that did not open or at a moment when its deadline had come |
| ReconcileLock.OnlyAttemptsEndTheWait | fleet/src/serve/lock.ts:212-220 | a call that waits for the flock goes on waiting until its own attempt finds it free, which starts the body, or held at or after the deadline, which ends the call |
| ReconcileLock.DeadlineEndsTheWait | fleet/src/serve/lock.ts:137-152 | a call that waits for its turn can leave, busy and with its gate released, as soon as its deadline has come, whoever is inside |
| ReconcileLock.FailedOpenEndsTheCall | fleet/src/serve/lock.ts:203-210 | a lock file that does not open ends the call busy, without a file and with its gate to be released next |
| ReconcileLock.FlockIsLetGoByItsHolder | fleet/src/serve/lock.ts:221-231 | the flock is taken only while free and let go only by its holder: a call that gives up frees it for nobody |
| ReconcileLock.OwnStepsAlone | fleet/src/serve/lock.ts:131-152 | a call that arrives past its deadline is busy at once, any other waits; a step of another call, process or the clock changes nothing of it |
| ReconcileLock.ArrivalsAndTime | fleet/src/serve/lock.ts:183-196 | over every run: a call keeps the deadline it arrived with, and the clock shows the time that elapsed |
| ReconcileLock.WithReconcileLock | fleet/src/serve/lock.ts:183-232 | one call: the body runs exactly if the turn comes, the file opens and some attempt before the deadline finds the flock free; fd and gate are released on every way out |
| Discover.OneMutationPerTick | fleet/src/reconcile/discover.ts:489-717 | both passes together mutate at most one box, and none read-only, without apply, token or password |
| Discover.MutatedIsFit | fleet/src/reconcile/discover.ts:513-560 | the mutated box is a reachable, rightly named candidate while nothing was pending, or a due member found broken, or a row out of its backoff window; it is counted as adopted or repaired accordingly, if it succeeded |
| Discover.FirstInTurnIsAdopted | fleet/src/reconcile/discover.ts:520-563 | with the slot and the budget free, the first fit candidate behind ones in backoff is the one adopted |
| Discover.FirstInTurnIsWorked | fleet/src/reconcile/discover.ts:626-690 | with the slot and the budget free, the first workable item behind ones in backoff is the one resumed or repaired |
| Discover.NeitherKindStarves | fleet/src/reconcile/discover.ts:613-624 | with both kinds of repair work due, the first row is enrolled on odd ticks, and on even ones the first broken member behind members in backoff |
| Discover.EachTickListsBoth | fleet/src/reconcile/discover.ts:595-624 | every tick lists all members that are incoherent for the second tick and all rows out of their window, each kind in its order, the members first on even ticks |
| Discover.NobodyIsPassedOver | fleet/src/reconcile/discover.ts:489-717 | for every tick: without token or password each candidate and item is skipped by name; otherwise each pass answers for its boxes one after another, with a skip, a look only, or a box in order, up to its call or the end of its time |
| Discover.TickBooks | fleet/src/reconcile/discover.ts:536-690 | for every tick: a success leaves no record, a failed enrolment and an unreachable box one failure more with the reason and the tick, every other name its record; no box in backoff is touched, and every skip says what is true of the box |
| Discover.FirstInTurnIsBooked | fleet/src/reconcile/discover.ts:536-545 | the first candidate behind ones in backoff, if unreachable, is booked as such |
| Discover.FirstInTurnIsInspected | fleet/src/reconcile/discover.ts:640-655 | the first due member behind ones in backoff, if it cannot be inspected, is booked as such |
| Discover.ReasonTellsTheFailure | fleet/src/reconcile/discover.ts:577-580 | two failed enrolments have the same reason if and only if they timed out at the same point or ended with the same code |
| Discover.ShutForTheWindow | fleet/src/reconcile/discover.ts:389-414 | a failure shuts its name out for exactly the window of its count and changes nothing for others |
| Discover.TimeBounds | fleet/src/reconcile/discover.ts:327-358 | probing takes at most its share and one re-probe, checking at most its share; only a resumed enrolment can pass that, by its own time, and it ends the pass; the first check can start if and only if a whole ceiling of the pool is left |
| Discover.StampIsExact | fleet/src/reconcile/state.ts:600-617 | the membership loop counts a member's consecutive incoherent ticks and touches no other marker |
| Discover.DueMeansTwoTicks | fleet/src/reconcile/discover.ts:595-600 | a steady member is due for repair if and only if it was incoherent at this tick and the one before |
| Discover.AdoptYields | fleet/src/reconcile/discover.ts:457-469 | while a member carries a live marker of the preceding tick, adopt mutates nothing |
| Discover.SlotIsFreeForDueRepair | fleet/src/reconcile/discover.ts:505-517 | whenever a steady member is due, the slot is still free when the repair pass begins |
| Discover.DueButNotYielded | fleet/src/reconcile/state.ts:608-613 | the exact condition under which a due box was not yielded to: its marker was not written by the preceding tick |
| Discover.LapsedBoxLosesTheSlot | fleet/src/reconcile/discover.ts:457-469 | a run in which a box is due for repair and adopt has spent the slot |
| Discover.BackoffIsBounded | fleet/src/reconcile/discover.ts:172-177 | one to twelve ticks for every failing name |
| Discover.BackoffDoubles | fleet/src/reconcile/discover.ts:172-177 | each failure doubles the window up to the cap |
| Discover.TickRespectsBackoff | fleet/src/reconcile/discover.ts:389-419 | a tick leaves the record of a name inside its window alone and counts at most one failure for any other |
| Discover.FailuresAreApart | fleet/src/reconcile/discover.ts:389-414 | over every run a name's record stays the same until its backoff window, counted from the last failure, is over, unless the size cap bit in between |
| Discover.ScheduleHolds | fleet/src/reconcile/discover.ts:397-414 | over every run there is one record a name, with at least one failure, and f failures in a row take at least their f - 1 windows |
| Discover.CapForgets | fleet/src/reconcile/discover.ts:730-732 | when the cap bites, some record is forgotten, whatever its window |
| Discover.WindowSurvives | fleet/src/reconcile/discover.ts:389-395 | while the ledger is not full, a record inside its backoff window stays unchanged through every tick of the window |
| Discover.PruneChangesNoVerdict | fleet/src/reconcile/discover.ts:720-729 | the age prune changes no backoff verdict, now or later |
| Discover.CapDropsTheOldest | fleet/src/reconcile/discover.ts:730-732 | the size cap keeps 64 records and drops none more recently tried than one it keeps |
| Discover.LoneRowYieldsOnce | fleet/src/reconcile/discover.ts:471-485 | a lone enrolling row that keeps failing defers adopt on one tick of each backoff window it opens; only the size cap can end that window early |
| DiscoverPasses.DiscoverBudget.CanStart | fleet/src/reconcile/discover.ts:334-339 | work may start exactly if its ceiling fits the pool and the side's share |
| DiscoverPasses.DiscoverBudget.Spend | fleet/src/reconcile/discover.ts:342-352 | time is charged to the pool and to its side only |
| DiscoverPasses.RepairMarkers.StampAll | fleet/src/reconcile/run.ts:830-832 | the loop over the members stamps every marker in place |
| DiscoverPasses.DiscoverRun.RecordFailure | fleet/src/reconcile/discover.ts:398-414 | counts a failure in the name's record or starts one at the end |
| DiscoverPasses.DiscoverRun.AdoptPass | fleet/src/reconcile/discover.ts:489-584 | the adopt pass in place, from the latch to the end of the candidate loop |
| DiscoverPasses.DiscoverRun.RepairPass | fleet/src/reconcile/discover.ts:595-717 | the repair and resume pass in place |
| DiscoverPasses.DiscoverRun.Finish | fleet/src/reconcile/discover.ts:728-737 | the ledger that is persisted |
| DiscoverPasses.DiscoverTick | fleet/src/reconcile/run.ts:376-418 | adopt, stamp, repair, finish: the tick's markers, its ledger, and at most one mutated box |
| Upgrade.MatchDoneRc | fleet/src/remote.ts:74-82 | the repeated search returns the code of the last marker, because no marker can start inside another |
| Upgrade.WrittenMarkerIsRead | fleet/src/remote.ts:69-82 | a marker written with any code is read back as that code |
| Upgrade.CodeIsOfTheLastMarker | fleet/src/remote.ts:74-82 | for every log: nothing is read if no marker is written in it, and otherwise the number of the one that starts last |
| Upgrade.VerifyBox | fleet/src/upgrade.ts:239-296 | ok if and only if the first marker within the tries says 0 and two adjacent checks within the tries pass with the target's sha; at most twice the tries in all |
| Upgrade.DeployBox | fleet/src/upgrade.ts:302-332 | ok if and only if copied, not refused by the box, and verified; a lost install connection is left to the verification |
| Upgrade.SuccessMeans | fleet/src/upgrade.ts:239-332 | in exit codes: copied with 0; installed with 0, 255 or killed; the first code read within the tries is 0; and two checks in a row are answered, healthy and of the target |
| Upgrade.BuildPlan | fleet/src/upgrade.ts:350-379 | one row a box: down, in sync on known equal versions, or to be deployed |
| Upgrade.PlanMeans | fleet/src/upgrade.ts:350-379 | with distinct targets, at each place of the order: down exactly if the probe is, in sync exactly if both versions are known and equal, deployed in every other case |
| Upgrade.OrderIsPermutation | fleet/src/upgrade.ts:597-600 | the canary comes first; the order is a permutation of the targets if and only if the canary is not named twice |
| Upgrade.RollOut | fleet/src/upgrade.ts:453-514 | the outcomes are those of a prefix of the order, only the last may be a failure or an abort, and the pass stops short only after one |
| Upgrade.OutcomesMean | fleet/src/upgrade.ts:453-514 | each outcome in terms of the probe and the deploy: the canary aborted and any other box skipped on a tunnel that is down, skipped in sync, good exactly if the deploy succeeded |
| Upgrade.RolloutIsDetermined | fleet/src/upgrade.ts:453-514 | these rules leave no freedom: the remote answers determine the outcomes |
| Upgrade.CanaryGates | fleet/src/upgrade.ts:460-505 | canary down: zero deploys; canary deployed: no other box before it verified, none if it fails |
| Upgrade.RecordApplyOutcomes | fleet/src/upgrade.ts:542-567 | one record a target, from the last outcome of its name, or not reached |
| Upgrade.RecordTellsThePass | fleet/src/upgrade.ts:533-567 | with distinct targets the record says for every box what happened at its place, and the target's sha exactly for the verified ones |
| Upgrade.RecordedSha | fleet/src/upgrade.ts:542-567 | the sha on record is the target of a verified box, and otherwise the one its probe read, if it read one |
| Upgrade.RunUpgradePass | fleet/src/upgrade.ts:385-527 | the whole command: exit codes, plan, outcomes and records; past staging the code is 1 if and only if a box failed or the pass was aborted |
| Divergence.DivergenceStore.CheckDivergence | fleet/src/store/divergence.ts:74-152 | every name's row, audit rows and notices advance as the state machine says; an unreadable file changes nothing |
| Divergence.RowIsExact | fleet/src/store/divergence.ts:112-149 | a row exists if and only if the last comparable check saw the name diverge; it has that check's kind and time, and the time its present stretch began |
| Divergence.TrailTellsTheRow | fleet/src/store/divergence.ts:13-19 | over every run a name's audit rows are blocks of divergence ended by clearance, each change starting from the kind before, and they say whether there is a row and of what kind |
| Divergence.EntriesAreOfChecks | fleet/src/store/divergence.ts:84-149 | over every run each audit row and notice is of one comparable check: it has its time and says of the name what that check saw |
| Divergence.RepeatsAreThrottled | fleet/src/store/divergence.ts:32-33 | over every run, repeated warnings of one kind are 24 hours apart, and a row on record was announced at its last-reported time, less than 24 hours before the last check |
| Divergence.Patrol | fleet/src/store/divergence.ts:74-152 | a sequence of checks leaves the rows, trails and notices that the lemmas speak of |
| Alerts.BoxAlerts.AlertDue | fleet/src/reconcile/state.ts:429-444 | due without a mark or after the window; the first-seen time is kept |
| Alerts.BoxAlerts.AlertBoxConditions | fleet/src/reconcile/alerts.ts:204-316 | the kinds shown, the kinds sent, and the new marks, wedge record and streak |
| Alerts.EachKindOnceInOrder | fleet/src/reconcile/alerts.ts:204-316 | the lists it returns have exactly the kinds that are so, none twice, in the fixed order |
| Alerts.SendsExactlyWhenDue | fleet/src/reconcile/state.ts:429-447 | over every run: a tick sends a kind if and only if it raises it and no send within the window is standing, uncleared |
| Alerts.SendsAreApart | fleet/src/reconcile/alerts.ts:30-43 | two sends with no clear between them are a renotify window apart |
| Alerts.MarkIsLastSend | fleet/src/reconcile/state.ts:429-447 | over every run a mark holds the times of the first and the last send since the kind was last cleared, and there is none without one |
| Alerts.WedgeMeansIncrease | fleet/src/reconcile/alerts.ts:234-258 | over every run: shown if and only if the count rose strictly since the last status-seen tick; silent on first sight |
| Alerts.KeepawakeMeansThree | fleet/src/reconcile/alerts.ts:260-284 | over every run: shown if and only if this and the two status-seen ticks before it all qualified |
| Alerts.RepairMeansThree | fleet/src/reconcile/alerts.ts:286-313 | over every run: shown if and only if either count is three or more, and then held back exactly while a full disk explains it and refreshes do not fail as well |
| Alerts.DisplayAgrees | fleet/src/reconcile/alerts.ts:318-364 | given the recorded count, the live display shows for certain exactly what the pager would; it never misses a keep-awake failure |
| Alerts.DisplayMayOverstate | fleet/src/reconcile/alerts.ts:318-364 | what the display marks as uncertain: a keep-awake failure by its last code alone, and any wedge without a recorded count |
| Alerts.AsleepMarker.AlertAsleep | fleet/src/reconcile/alerts.ts:81-105 | one tick of the asleep timer |
| Alerts.TellsExactlyWhenDue | fleet/src/reconcile/alerts.ts:81-105 | over every run: a message about a sleep goes out if and only if none did and it lasted two hours, or one did and none within the last day |
| Versions.CompareVersions | fleet/src/serve/lease-eligibility.ts:101-116 | the loop over segments computes the lexicographic comparison |
| Versions.SegmentsMeetAtThree | fleet/src/serve/lease-eligibility.ts:102-103 | a version falls into segments at each dot, hyphen and plus, and nowhere else |
| Versions.CompareFlips | fleet/src/serve/lease-eligibility.ts:96-116 | swapping any two versions flips the sign, and a version equals itself |
| Versions.SegmentsOrderedExactly | fleet/src/serve/lease-eligibility.ts:105-113 | all six transitivity laws hold of three segments if and only if no numbers m, n and word z among them have m at most n by value, n before z and z before m as strings |
| Versions.VersionsOrderedExactly | fleet/src/serve/lease-eligibility.ts:101-116 | they hold of three versions if and only if the first place where these are not all equal has no such knot, or one of equal numbers that the rest undoes |
| Versions.CompareIsTransitive | fleet/src/serve/lease-eligibility.ts:101-116 | so versions are ordered whose segments are place by place numbers or absent, or at most one number |
| Versions.DottedNumbersAreOrdered | fleet/src/serve/lease-eligibility.ts:101-116 | a total preorder on dotted numbers of any lengths |
| Versions.EqualNumbers | fleet/src/serve/lease-eligibility.ts:105-113 | dotted numbers are equal if and only if they have as many parts, equal part by part |
| Versions.MixedIsNotTransitive | fleet/src/serve/lease-eligibility.ts:96-100 | 9, 10 and 1a are ordered in a circle |
| Versions.RenameVerGe | fleet/src/commands/rename.ts:24-34 | compares the first three parts in order, absent and unreadable ones as 0 |
| Versions.ParseIntReads | fleet/src/commands/rename.ts:25-28 | a part reads as the digits that follow its blanks and sign, with that sign, and as 0 without any |
| Versions.TheTwoAgree | fleet/src/commands/rename.ts:24-34 | the two comparisons agree on three-part numeric versions |
| Versions.AgreementIsExact | fleet/src/commands/rename.ts:24-34 | on dotted numbers of any lengths the two comparisons part company if and only if the first three parts, absent ones taken for 0, are equal and the parts after them, or the number of parts, decide against |
| Versions.TextsAgreeExactly | fleet/src/commands/rename.ts:24-34 | the same of version texts without `-` and `+` |
| Versions.ShortVersionsDiffer | fleet/src/commands/rename.ts:24-29 | a missing part is 0 to one of them and less than 0 to the other |
| LeaseChoice.IneligibleReason | fleet/src/serve/lease-eligibility.ts:145-197 | no reason if and only if no arm objects; otherwise the objection of the arm that comes first in the order of precedence |
| LeaseChoice.EligibleIsFit | fleet/src/serve/lease-eligibility.ts:145-197 | no arm objects if and only if the box is free, enrolled, no canary that is closed, seen well in a fresh enough snapshot, of the wanted version, and for a job has a runner and an empty slot |
| LeaseChoice.ReasonIsUnique | fleet/src/serve/lease-eligibility.ts:122-144 | that determines the reason |
| LeaseChoice.ChooseHighest | fleet/src/serve/lease-eligibility.ts:237-248 | the eligible candidate of the greatest index, the first if tied, or the reasons of exactly all candidates |
| LeaseChoice.ChooseBox | fleet/src/serve/lease-eligibility.ts:207-248 | a named box if and only if it exists and is eligible; without a name the greatest eligible index if there is one; otherwise a map that covers exactly the candidates |
| LeaseChoice.SilentOnTheRetired | fleet/src/serve/lease-eligibility.ts:207-225 | of the table the map is silent about exactly the retired boxes that were not named |
| MapLimit.EachItemOnceInOrder | fleet/src/maplimit.ts:14-27 | however the workers interleave: as many of them as the limit and the items allow, items begun in order and once, results in their places, all there when the workers have stopped |
| MapLimit.RunsEnd | fleet/src/maplimit.ts:18-24 | an exact count of the turns still to come, so every run ends |
| MapLimit.NeverStuck | fleet/src/maplimit.ts:18-24 | a worker that has not stopped can take a turn |

## Left out

- Process spawning, ssh, scp, git, HTTP, Telegram and the Tailscale API: their answers are arbitrary parameters.
- SQLite, file modes, backups and crashes in the middle of a file write: tables are maps, files are values.
- Text is a sequence of characters; the source counts UTF-16 units, and one unit stands for one byte of a log.
- FleetBlock.WriterEstablishesChecker: for wanted values of one word. Which lines are harmless or steady is exact for each line among plain ones; combinations of several others are not classified.
- JobStore.EveryJobIsServed: for a fixed set of jobs and pollable boxes at strictly later times; a stream of new, never-polled jobs may always go first.
- JobStore.RunIsSound: handlers run one after another. `updateJob` has no guard on the stored state, so a handler suspended in an ssh call may overwrite what another wrote meanwhile; such interleavings are not modelled.
- JobStore.Store.CreateJob: the number inside a `start-failed-rc-N` reason and the audit rows are not modelled.
- The alert at the end of a failed job, and parsing of the status line.
- ReconcileLock.WithReconcileLock: one call's own view, for a clock that advances by at least the retry pause between attempts; the interleavings are in the state machine.
- Discover.DueMeansTwoTicks: members have a box index; a member without one is never stamped, because the tick leaves it before that line.
- The choice of candidates from the list of peers, the time stamp of a ledger record, forgetting host keys, the mapping file under /etc and its check.
- Upgrade: resolving and staging the tree, the re-execution under flock, the wording of details and notifications.
- Divergence.DivergenceStore.CheckDivergence: the order of rows among different names, and the four result lists beside the notices.
- Alerts: the counter of `incoherent-both-dead`, and the wording of messages. One box at a time.
- LeaseChoice.ChooseBox: for boxes of distinct names, as the table's key has it; the wording of reasons and ages.
- MapLimit.EachItemOnceInOrder: for a function that does not throw.
- `unknownManagedKeys`, `cmdRename`, `cmdEnrollResult`, the decision tables `decide.ts` and `observe.ts`, the TUI and argument parsing: no deep invariant, or plain I/O.
