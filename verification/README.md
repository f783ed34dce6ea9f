# EPA Connectivity Monitor: verified model

The monitor polls network endpoints from a connector host and appends one JSON line per check
execution to a log. Between its calls into the operating system sit several state machines whose
correctness is not visible in any one function. This project models them in Dafny and proves what
they keep over every input and every run. Clocks, sockets, disk probes, control requests and the
scheduler are an environment that answers in any way and at any moment; log files may be created,
appended to and truncated at any point, and a glob may lead a check to any file it can match, but no
file is moved.

| file | component |
|---|---|
| `Lines`, `Scanner` | line splitting as one function, and the buffered reader that computes it |
| `LogTail`, `TailProtocol`, `TailSystem` | one log_tail tick; a tick as interleaved steps over changing files; all log_tail checks together |
| `TailCoverage` | what a check was and was not given |
| `TailFiles`, `TailNames`, `TailConfig` | checks confined to certain files; what a shared name does; which loaded configurations are safe |
| `Workers`, `Interactive`, `Service` | the per-check loops; the foreground supervisor; the Windows service supervisor |
| `DiskGuard`, `Console`, `Logger`, `LogWriters` | the cached disk decision; the logger object; many writers at once |
| `HoldOpen` | the hold-open reader, timers and close attribution |
| `Target` | host and port normalisation |
| `CpuSampler` | CPU percentage from wrapping counters |
| `Snapshot` | parallel fan-out and stable sort |
| `Icmp` | the sticky ICMP switch |
| `Config` | defaulting and validation |

Objects that the program updates in place are classes with proved methods (`Tailer`, `LineScanner`,
`Logger`, `Sampler`, `Config`, the in-place sort); protocols between goroutines are step relations
with an invariant and theorems over all their runs; pure code is functions with lemmas. Bytes of log
files are bytes; every byte ever written carries a serial number, so that "the same byte" keeps its
meaning across truncation and rotation.

What the proofs found out about the code:

- A log_tail check is given every written byte at most once, in every run under appends, truncations
  and changes of path at any points of its ticks, exactly when no two checks share both their name
  and a file they may open (`AtMostOnceIff`); it behaves as it would alone exactly when no two share
  their name (`IndependentIff`). Configuration loading guarantees neither. Two unnamed log_tail checks
  on one file share a cursor, and a slow one moves it back so that the other reads bytes twice
  (`SharedFileIsReread`); on two files, taking turns, both report success for ever and neither scans
  a line (`UnnamedTailsStarve`). `TailsOnceIff` and `TailsIndependentIff` say which configurations
  are safe.
- With distinct names, nothing before the cursor is missed, and the cursor is inside the file,
  exactly when the file was not cut below the cursor after it was measured for the baseline
  (`CoverageIff`). A file emptied and refilled to its old size between two ticks is not scanned
  (`RefillIsMissed`), and a truncation inside a tick leaves a stored offset past the end
  (`OffsetPastEnd`).
- Scanning tick by tick gives the lines of one scan exactly when no tick starts inside a line; each
  tick that does adds one line. The pattern then sees the two fragments instead of the line: a match
  can be lost and one can be invented (`CutMatches`, `CutLosesAndInvents`).
- A tick that meets an overlong line stops there without an error: a full buffer of that line is never
  matched, and the verdict is that of the lines before it (`OverlongIsUnseen`). A failure to read the
  position back is ignored too, and the whole file is scanned again (`UnknownPositionRescans`).
- Loading does not make intervals positive either; a negative one reaches `time.NewTicker`, which
  panics. `PlanOk` is that requirement, and `TickersSafeIff` says when it holds.
- A loop that sleeps in its select when the cancellation comes, or next finds no tick there, runs no
  check any more; one that finds a tick waiting may run on, cancelled or not. After Stopped, records
  can still follow exactly when some loop had not left; only the ten-second timer leads there, and a
  check that runs longer does (`LateRun`).
- A failed disk probe ends a pause without a message, so two warnings can follow each other: exactly
  when a probe finds too little space, the next fails, and a later one finds too little again
  (`SecondWarningIff`). A negative
  `log_min_free_disk_mb` becomes a threshold that no disk meets; every other value is kept
  (`ThresholdIff`).
- A hold-open connection that dies of an operating-system timeout in the last half second is
  reported as a full hold, because such an error also says that it timed out (`KernelTimeoutPasses`).
- Normalising a target twice equals normalising once exactly when the target is bracket-free or
  splits; a bracketed IPv6 literal without a port is neither.
- CPU readings are taken before the lock. Processed out of order they give more than 100 percent
  exactly when both idle and busy time lay between them.
- An ICMP check can report a skip before the once-only warning is out, exactly when there are at
  least two ping checks (`SkipBeforeWarningIff`); another check is then on its way to warn.

Where documentation and code differ, the model follows the code. README.md:102-107 of the monitor
says that log_tail emits one record per matching line with fields for the line and its offset; the
code emits one record per tick with a list of at most fifty matches, and its match count saturates
there (`Verdict`).

## Model

| member | source | states |
|---|---|---|
| Lines.ConsumedBounds | checks_logtail.go:114-127 | without an overlong line a scan reads everything; with one it still advances by at least a whole buffer and never past the end |
| Lines.OverlongDropped | checks_logtail.go:114-127 | with an overlong line the delivered lines are those of the data before the last full buffer, which lies inside one line and is in none of them |
| Lines.ScanAfterBoundary | checks_logtail.go:114-126 | line splitting is a homomorphism at line boundaries: lines, distance and overlong stop of a concatenation |
| Lines.CutLine | checks_logtail.go:109-131 | exactly how a tick boundary inside a line changes the result: that one line is delivered as two, all others agree, carriage returns included |
| Lines.TwoScansIff | checks_logtail.go:109-131 | two scans equal one scan if and only if the cut is on a boundary or nothing follows |
| Lines.PiecesIff | checks_logtail.go:109-131 | over any number of ticks, incremental lines equal one-shot lines if and only if no tick starts inside a line; otherwise the counts differ by the number of such ticks |
| Lines.ScanUnlines | logger.go:129-133 | reading back newline-terminated records gives exactly those records |
| Lines.ScanText | checks_logtail.go:114-120 | lines are read back as written, whether they end in a line feed or in a carriage return and a line feed: exactly one carriage return goes, and whatever follows is scanned afresh |
| Lines.ScanLastLine | checks_logtail.go:114-120 | a last line without a line feed is delivered too, less one carriage return at its end |
| Lines.UnlinesScan | checks_logtail.go:114-126 | no byte is lost: the lines of aligned data without carriage returns print back to it |
| Scanner.LineScanner.Scan | checks_logtail.go:114-120 | the buffered reader, with shifting and growing buffer and reads of any sizes, delivers exactly the next line of the specification, or stops with the file position the specification gives |
| LogTail.ScanFile | checks_logtail.go:114-127 | the scan loop counts all lines, keeps the first fifty matches in order, and yields the exact distance moved |
| LogTail.Tailer.FillLogTail | checks_logtail.go:41-147 | for every answer of the system: whatever fails before the scan is an unsuccessful result with an error and leaves every cursor alone; a new, changed or shortened file is a success with a cursor at its end and the reason; otherwise lines, first fifty matches, verdict and new offset of a scan in lines below 1 MiB; no other check's cursor moves |
| LogTail.Verdict | checks_logtail.go:116-146 | success if and only if no scanned line matches; matches are the first fifty, their count saturates, the line count does not |
| LogTail.MatchingPositions | checks_logtail.go:116-126 | the list of matches is exactly the lines at the matching positions, in order |
| LogTail.ScansIff | checks_logtail.go:78-107 | a tick scans if and only if the last tick saw the same file and it is not shorter than the cursor; otherwise it takes a fresh baseline |
| LogTail.CutMatches | checks_logtail.go:116-126 | for any data and pattern, how a tick boundary inside a line changes the match list; and exactly when it changes the verdict |
| LogTail.CutLosesAndInvents | checks_logtail.go:116-126 | at every cut of a line some pattern loses its match and some other finds a line that is not in the file |
| LogTail.BacklogDrains | checks_logtail.go:109-131 | on a file that stands still the ticks reach its end after one more than the number of whole buffers in the backlog, overlong lines or not, and stay there |
| LogTail.OverlongIsUnseen | checks_logtail.go:116-136 | a tick stopped by an overlong line succeeds if and only if no line before the last full buffer hits |
| LogTail.UnknownPositionRescans | checks_logtail.go:127-131 | what offset is stored; 0 when the position cannot be read back, and then the next tick on the file scans from its start |
| LogTail.ResolveLogPath | checks_logtail.go:153-184 | a path without `*`, `?` and `[` is used as it is; a glob yields a match such that no other has a later time, a file without a time counting as one of time 0; none if there is no match or the pattern is bad |
| TailProtocol.InvAfterFileEvent | checks_logtail.go:78-131 | appends and truncations at any point of a tick keep the invariant of a check |
| TailProtocol.InvAfterAct | checks_logtail.go:61-131 | every step of a tick keeps it: all settled bytes are behind the cursor, ticks tile the epoch, the epoch mirrors the file |
| TailProtocol.ReadIsNew | checks_logtail.go:109-127 | what a read hands over is free of duplicates and was neither handed over nor passed over by a baseline before |
| TailSystem.NonInterference | checks_logtail.go:78-131 | with distinct names, in every interleaving of locked lookups and stores, each check has the same run and the same cursor, lines and history as alone |
| TailNames.IndependentIff | checks_logtail.go:78-131 | whatever files each check may open, as long as there are any, every check lives through every run as it would alone if and only if no two share a name |
| TailFiles.ApartIsSafe | checks_logtail.go:61-131 | as long as checks that share a name share no file, in every run each is given every written byte at most once, and every read brings new bytes only |
| TailFiles.EveryCursorNamesAFile | checks_logtail.go:61-67 | a check opens only files that exist: in every run every cursor names one |
| TailNames.AtMostOnceIff | checks_logtail.go:61-131 | in every run no check is given a written byte twice, if and only if no two checks share both a name and a file they may open |
| TailNames.NothingOldIff | checks_logtail.go:37-40 | in every run a read brings only bytes that were neither delivered before nor in the file at an earlier baseline, if and only if no two checks share both a name and a file they may open |
| TailNames.SharedFileIsReread | checks_logtail.go:78-131 | two checks under one name that may open one file: for any contents and any appended data, a run in which one is given all of that data twice |
| TailCoverage.CoverageIff | checks_logtail.go:78-131 | with distinct names, in every run: the cursor is within the file and nothing before it was missed if and only if no truncation has cut the file below the measured size or the cursor since it was measured for the baseline; what was delivered is then the file from baseline to cursor; the windows of the ticks tile it in every case |
| TailCoverage.EpochLines | checks_logtail.go:109-131 | with distinct names, over any run the reported lines equal one scan of everything given since the baseline if and only if no tick started inside a line |
| TailSystem.FinishIsTick | checks_logtail.go:109-131 | reading in pieces up to the end of the file, or to a full buffer, stores and reports what the one-piece tick does |
| TailSystem.RebaselineIsTick | checks_logtail.go:86-107 | storing a baseline does what the one-piece tick does on a file of the measured size |
| TailCoverage.OffsetPastEnd | checks_logtail.go:76-131 | for every nonempty file, a run in which truncation inside a tick leaves an offset past the end |
| TailCoverage.RefillIsMissed | checks_logtail.go:82-84 | for every file and contents, a run in which a refilled file is never scanned |
| TailNames.SharedNameNeverScans | checks_logtail.go:78-89 | two checks under one name on different files, taking turns, only ever take baselines |
| Workers.InvDo | main.go:164-183 | every step of every loop, ticker and clock keeps the counter, tick and record accounting |
| Workers.CounterIsLive | main.go:153-161 | the WaitGroup counter is never negative, and zero if and only if every added loop has finished |
| Workers.ExecutionBound | main.go:164-183 | at most one execution in flight; one per distinct tick after the first; at most 1 + floor(elapsed / interval), from the ticker's start, which is not before the loop's |
| Workers.WaitingTickStays | main.go:173-182 | the ticker's channel holds one tick and drops the rest: a waiting tick stays until the loop itself takes a step |
| Workers.RunLoop | main.go:164-183 | a loop by itself executes once, and outside once mode once more per tick before the first cancellation it sees |
| Workers.RunUsesRank | main.go:164-183 | in any run the loops take at most as many steps as their rank, plus three per tick |
| Workers.NeverStuck | main.go:175-182 | after cancellation or in once mode an unfinished loop always has a step to take |
| Workers.Drains | main.go:164-183 | after cancellation or in once mode all loops can run to their end without a further tick, within their rank, and the counter reaches zero |
| Workers.ExecutionsToCome | main.go:173-182 | from any point on, cancellation included, a loop begins at most what it owes plus one execution per further tick of its own |
| Workers.RestsOrLeaves | main.go:173-182 | in any run that brings a loop at an empty select no further tick, it runs no check and writes no record, and it leaves only if the context is cancelled |
| Workers.LeavesAtEmptySelect | main.go:176-181 | a cancelled loop whose next step finds no tick waiting leaves there and, whatever ticks come later, begins no further execution and writes no record |
| Workers.ParkedIsReleased | main.go:176-181 | a loop asleep in its select when the cancellation comes begins no further execution and writes no record |
| Workers.CanStillWrite | main.go:175-182 | any other loop can be driven to one more record, cancelled or not: a select that finds a tick waiting may prefer it |
| Workers.CanStillWriteIff | main.go:164-183 | a loop can still hand over a record if and only if it has not left |
| Interactive.ReturnsWhenAllFinished | main.go:139-162 | runInteractive returns only when all configured loops have finished; in once mode each check then ran, and handed over its record, exactly once |
| Interactive.SignalEnds | main.go:142-162 | from every reachable state a signal can bring runInteractive to its end, without a further tick and without time passing |
| Interactive.CancelledIffSignalled | main.go:139-151 | the loops are cancelled if and only if a signal has come |
| Service.StatusProtocol | service_windows.go:51-95 | in every run the reported statuses are exactly those of the stage reached: StartPending, Running, the echoes in order, StopPending, Stopped |
| Service.StopsClean | service_windows.go:71-95 | from every serving state a stop or a shutdown can lead to Stopped with all loops finished and no time passed |
| Service.NeverGoesBack | service_windows.go:51-95 | statuses never go back; Stopped comes at most once and last |
| Service.Serve | service_windows.go:71-80 | the request loop answers every interrogation up to the first stop or shutdown and leaves there |
| Service.SilentAfterDrain | service_windows.go:82-95 | if the wait ended because all loops finished, no record and no status ever follows Stopped |
| Service.LateRecordIff | service_windows.go:82-95 | a record can follow Stopped if and only if some loop has not left, which those asleep in their select at the cancellation have, and which takes the timer and at least ten seconds |
| Service.StopsLate | service_windows.go:71-95 | from any serving state in which a check is running, a run to Stopped in which that check is still running |
| Service.LateRun | service_windows.go:51-95 | so also from the start, for any interval |
| DiskGuard.EveryDecisionIsFresh | logger.go:83-114 | every decision is that of a real probe less than thirty seconds old; a failed probe counts as room |
| DiskGuard.ProbeBudget | logger.go:91-94 | probes are at least thirty seconds apart, at most 1 + T/30s over a span T |
| DiskGuard.ZeroThreshold | logger.go:87-89 | a zero threshold never probes and always gives room |
| DiskGuard.MessageAccounting | logger.go:99-113 | warnings less resumptions less silent clears is one exactly while paused; warnings and resumptions alternate accordingly |
| DiskGuard.SecondWarningWithoutInfo | logger.go:100-103 | a failed probe clears a pause silently and the next full probe warns again |
| Console.SecondWarningIff | logger.go:95-113 | over any calls two warnings are printed with no resumption between them if and only if a probe found too little space, the next one failed, and a later one found too little space again |
| DiskGuard.NegativeThresholdSilences | logger.go:77 | a negative configured threshold suppresses every record while probes succeed |
| DiskGuard.ThresholdIff | logger.go:77 | the conversion keeps the threshold, and successful probes decide by the configured one, if and only if that is not negative |
| Logger.Logger.constructor | logger.go:60-81 | the threshold is the unsigned conversion of the configured one, the host falls back to "unknown", and nothing has been probed |
| Logger.Logger.DiskHasRoom | logger.go:86-114 | for every earlier state, time and probe: the step of the guard, and, branch by branch, decision, cached state, messages and time of the last warning |
| Logger.Logger.Write | logger.go:116-158 | whole effect of a call for the record with its time, host and tenant filled in field by field: file, console and guard for marshal errors, suppressed records, failing and complete writes |
| Logger.StampedRecord | logger.go:117-127 | a missing time becomes the given time, a missing host the given host, others are kept; a known tenant is added under its key and nothing else changes; stamping is idempotent |
| LogWriters.FileIsWholeRecords | logger.go:128-157 | under any interleaving of writers and split appends, without write errors, the file is at every moment whole records in status-line order and a beginning of the record being written; it reads back as exactly those records |
| LogWriters.WrittenPositions | logger.go:136-157 | the written records are an in-order subsequence of the status lines; written plus suppressed is all |
| LogWriters.RecordsAreConserved | logger.go:128-157 | every marshalled record is written, suppressed or still with its writer; decisions and messages are those of the guard |
| LogWriters.EveryRecordKeepsItsText | logger.go:116-158 | the status lines and what the writers still hold are exactly the submitted records, each as often and with the same text |
| LogWriters.SuppressedOnlyWhenFull | logger.go:136-140 | a record missing from the file had a probe, less than thirty seconds before, that really found too little space |
| LogWriters.CallsAreTimed | logger.go:86-94 | the guard is asked with the time of its own turn, within the span of the run |
| LogWriters.SectionIsWrite | logger.go:134-157 | an uninterrupted critical section has the effect promised of the logger's method |
| LogWriters.RejectIsWrite | logger.go:128-132 | a record that cannot be marshalled leaves one console line and touches nothing else |
| HoldOpen.Handshake | checks_holdopen.go:72-107 | the main goroutine reads the reader's variables only when it is gone; the error is then the one that ended the reads, the byte count is the sum of all reads, the first-byte time is that of the first read that brought any, and none changes again |
| HoldOpen.Classification | checks_holdopen.go:146-177 | for every error and holding time, cause and class: timeouts by the last 500 ms, then the marks of a reset, then end of file, then our own close |
| HoldOpen.ResetPhrases | checks_holdopen.go:179-190 | an error that is no timeout and has one of the three phrases anywhere in its text is a reset by the peer |
| HoldOpen.Attribution | checks_holdopen.go:97-177 | over all timed interleavings, the named culprit and the class for each cause of death |
| HoldOpen.LocalCloseNeedsCancel | checks_holdopen.go:94-107 | an early local close only if the outer context was cancelled before the hold time less 500 ms; the safety net alone yields a full hold |
| HoldOpen.CancelledWhen | checks_holdopen.go:94-107 | a cancellation is noted at the time at which it comes, and only when one comes |
| HoldOpen.HealthyIff | checks_holdopen.go:109-110 | healthy if and only if our deadline or our close ended it, or a system timeout came in the last 500 ms or later |
| HoldOpen.KernelTimeoutPasses | checks_holdopen.go:146-163 | from any start, a run in which a system timeout is reported as a healthy full hold before the check's own deadline |
| HoldOpen.AlwaysEnds | checks_holdopen.go:94-107 | from every reachable state a verdict is at most six steps away, at once after a cancellation or the end of the reads, and otherwise no later than the safety net of 5 s, without help from the peer |
| HoldOpen.ReadLoop | checks_holdopen.go:77-92 | the reader ends with the first error, having counted every byte and noted the first read that brought any |
| Target.AtoiItoa | checks.go:27 | printing and parsing any 64-bit port gives it back |
| Target.AtoiIff | checks.go:27 | what parses, and as what: exactly the decimal forms, with a sign or leading zeros or not, of the 64-bit integers |
| Target.ItoaIs | checks_holdopen.go:40 | a port is printed in its shortest decimal form |
| Target.SplitIff | checks.go:25 | what splits, and into what: exactly a bracketed bracket-free host, or a host free of brackets and colons, then a colon and a port free of both |
| Target.PortChoice | checks.go:24-31 | the embedded port counts if and only if it is a decimal form of a positive 64-bit integer; otherwise the default does |
| Target.UnsplitStays | checks.go:32 | a target of no such form is the host as it stands, with the default port |
| Target.AddressIs | checks_holdopen.go:40 | the dialled address: only hosts with a colon are bracketed |
| Target.SplitOfJoin | checks_holdopen.go:40 | splitting a joined address gives host and port back, IPv6 hosts included |
| Target.TargetRoundTrip | checks.go:24-33 | for every bracket-free host and positive port the normaliser recovers both from the dialled address, whatever the default |
| Target.DefaultRoundTrip | checks.go:24-33 | the same for the default port, of any sign |
| Target.SplitHostIsBracketFree | checks.go:25 | whatever splits has a bracket-free host |
| Target.IdempotentIff | checks.go:24-33 | normalising twice changes nothing if and only if the target is bracket-free or splits |
| Target.BracketedLiteralStays | checks.go:32 | a bracketed literal without a port is returned as it is and is not such a target |
| CpuSampler.Sampler.CpuPercent | checks_host_windows.go:110-132 | the percentage against the reading processed before, which it replaces; zero for the first; nothing changes on a failed reading |
| CpuSampler.FromHalves | checks_host_windows.go:106-108 | the 64-bit value has the two given halves |
| CpuSampler.InOrderIsExact | checks_host_windows.go:122-131 | readings in order give the percentage that, times the total, is a hundred times the busy time, within 0 to 100, across any wrap-around |
| CpuSampler.BoundIff | checks_host_windows.go:126-131 | at most 100 if and only if the idle difference is not above the total difference |
| CpuSampler.OutOfOrderIff | checks_host_windows.go:111-116 | readings processed out of order exceed 100 if and only if both idle and busy time passed between them |
| CpuSampler.Telescope | checks_host_windows.go:122-130 | busy and total differences over any processing order add up to last minus first, modulo 2^64 |
| Snapshot.FanOut | snapshot.go:40-54 | whatever the order of completion, every slot holds its own check's outcome |
| Snapshot.SortStable | snapshot.go:56-61 | the in-place sort leaves the specified table |
| Snapshot.TableIsOrdered | snapshot.go:56-61 | the table is an arrangement of the slots, failures first, names in order |
| Snapshot.LexLessIff | snapshot.go:60 | the order of names: a proper beginning, or the smaller character where they first differ |
| Snapshot.StableOrderIsUnique | snapshot.go:56-61 | there is only one stable arrangement, so any stable algorithm gives this table |
| Snapshot.RunSnapshot | snapshot.go:40-131 | table, counts and exit code depend on the outcomes alone; the failures are as many as the checks that failed; 0 if and only if all passed |
| Icmp.WarnedOnce | checks.go:106-132 | over all interleavings at most one warning, only when disabled, and it has come when nobody is on the way to give it |
| Icmp.EveryPingReports | checks.go:122-173 | over all interleavings every ping that has looked at the switch is under way or has made exactly one report |
| Icmp.ReportsTell | checks.go:144-173 | the reports of a run are those of the pings that ended, in order and of their kind |
| Icmp.StaysDisabled | checks.go:106-173 | the switch never goes back, and from then on at most as many pingers are made as checks had found it still on |
| Icmp.LoadAfterStore | checks.go:122-148 | in any run a check whose load follows a store makes no pinger from there on and reports only successful skips |
| Icmp.LateChecksIff | checks.go:122-173 | with the switch off, a check can still report something else if and only if it is inside a ping, and can still make a pinger if and only if it has found the switch on and not made it |
| Icmp.SkipBeforeWarningIff | checks.go:122-148 | some run reports a skip before the warning if and only if there are at least two ping checks |
| Icmp.AnnouncedSoon | checks.go:122-148 | when a check is about to report a skip before the warning, another one has stored the flag and is on its way to warn |
| Config.Config.Complete | config.go:81-135 | defaults of every setting; success if and only if there are checks and none breaks a rule; otherwise the first offender and the first rule it breaks |
| Config.RulesAre | config.go:108-125 | each rule by itself: the eleven types, the four that need no target, resolver and path; the first one broken is named |
| Config.FilledIs | config.go:103-131 | what a check is given for each field it leaves empty |
| Config.FilledIsStable | config.go:102-131 | a loaded check has a name, an interval and a timeout, passes again, and is not changed by loading it again |
| Config.TickersSafeIff | config.go:103-105 | all intervals are positive if and only if no configured one is negative and none falls back to a negative default |
| TailConfig.TailsOnceIff | config.go:128-130 | for any configuration, in every run every log_tail check is given every written byte at most once, if and only if no two get one given or made-up name while their log paths can lead to one file |
| TailConfig.TailsIndependentIff | config.go:128-130 | for any configuration whose globs can match something, every log_tail check behaves in every run as it would alone, if and only if no two get one name |
| TailConfig.UnnamedTailsStarve | config.go:128-130 | two unnamed log_tail checks get one name and, on different files, never scan when they take turns |

## Left out

- CoverageIff, EpochLines: stated for distinct names; `IndependentIff` says why that is needed.
- AtMostOnceIff, NothingOldIff: files are created, appended to and truncated but not moved. A file that is moved onto a tailed path, its own old one or that of another file, brings its bytes there again; neither that nor a handle that outlives the replacement of its path within a tick is modelled.
- Finish: stores the position it has reached; a failure to read it back, which stores 0, is modelled in `Tick` and `FillLogTail` but not in the interleaved steps, where the bytes would be delivered again.
- MayOpen: what a glob pattern can match is a parameter; two spellings of one path count as two files.
- ScanFile: one delivery of bytes ends at the first end of file or read error; reads that return nothing without an error do not occur on files.
- ExecutionBound: counts ticks, not wall-clock lateness; the ticker's own timing is only assumed to give tick k no earlier than k intervals after its start.
- NeverGoesBack: assumes that interrogations carry the status last reported, which the service library fills in.
- FileIsWholeRecords: assumes no rotation and no write that has failed; with errors the invariant still accounts for every partial record.
- Attribution: error values are reduced to what the code asks of them (timeout, reset, end of file, closed); which errors the TLS library returns is an assumption stated in `Shows`.
- CpuPercent: real numbers stand for floating point; rounding to one decimal is not modelled.
- SortStable: the library's insertion sort; its merging of larger blocks is not modelled, but uniqueness covers its result.
- FillLogTail, fillHoldOpen and the supervisors as they interleave: modelled as steps on values, since a method cannot be interrupted; the sequential methods cover each goroutine by itself.
- Regular expressions: a pattern is any predicate on lines.
- Sockets, TLS, DNS, ICMP packets, `netsh`, `netstat`, `tracert`, registry and service-manager calls: external; only the values they return appear.
- JSON and YAML encoding and log rotation: marshalling is a function that may fail, the file only grows.
- The other fill functions, `runCheck`'s dispatch, TCP rate deltas, table layout, colours, flags, install and uninstall, and directory creation are not modelled.
