# A verified model of the mq-container runtime helpers

This project models, in Dafny, the stateful parts of the programs that run inside an IBM MQ
container, and proves what they promise for every input, every run and every interleaving:

- the redactor that hides passwords in MQSC text before it is logged (`internal/mqscredact`);
- the goroutine that mirrors MQ's error logs to the console while they grow and are rotated
  (`cmd/runmqserver/mirror.go`);
- the rotating, deduplicating logger (`pkg/logrotation`);
- the protocol between main thread, signal handler and queue manager stopper that starts and stops
  the container (`cmd/runmqserver/signals.go`, `cmd/runmqserver/main.go`);
- the cleaner of volumes (`cmd/runmqserver/crtmqvol.go`), the certificate watcher
  (`internal/metrics/tlswatch.go`), the metrics exporter (`internal/metrics/exporter.go`,
  `internal/metrics/update.go`), the serialised writers (`pkg/syncwriter`) and the zeroing buffer
  (`internal/sensitive`).

`dafny verify dfyconfig.toml` checks everything.

## How it is built

Sequential code is written as imperative Dafny, with the loops and variables of the source, and is
proved equal to a specification function: `Mqscredact.Redact` against the transducer of
`RedactMachine`, the methods of `LogRotation.RotatingLogger` against functions of the directory,
`VolumeCleaner.Volume` against the set of paths that remain, `CertificateWatch.CertificateMonitor`,
`Metrics.Exporter`, `SyncWriter.Registry` and `Sensitive.Buffer` against their contracts. The
theorems are then lemmas about the specification. Code whose point is concurrency (the mirror, the
signal handler, the certificate watcher, scrapes that overlap, threads in `Write`) is a transition
system: one step for each system call or channel operation, in any order that the channels, locks
and contexts allow, and the theorems quantify over all finite runs.

The redactor is specified twice. `RedactMachine` reads one rune at a time with the variables of the
code. `RedactWords` reads the text in two passes, as a person would explain it: cut it into
parameters, and hide a value when one of the words before it holds a keyword. `RedactWords.OutIsShown`
connects the two for every text. `RedactSettings` then states, about the text alone and without the
vocabulary of either, which words hide a value, what a value is, and what joins and separates words.

## What the proofs brought to light

Where the code does not do what its documentation or its comments say, the model follows the code,
and a lemma says exactly when the two agree.

- The warning in `cmd/runmqserver/mirror.go:163` says that a rotation at the wrong moment can make the
  mirror skip messages. It can also make it mirror them twice: a rotation between the look at the path
  and the open that follows it leaves the wrong inode on record, so the next pass takes the file that is
  open for a new one. And it can happen before the first open, where the place to start from, which was
  the end of the old file, is applied to the new file and the first lines of that are passed over although
  it is open (`MirrorLimit.StaleOffsetPassesLine`). Module `MirrorLimit` says for every state exactly
  when a rotation can make the mirror repeat lines, exactly when it can make it pass lines over, and
  therefore that `Mirror.Harmless` is the weakest limit on rotations under which every line is mirrored
  once and in order.
- A repeated message is not always deduplicated, because only the last line of the file is compared with
  it. A message with a line break inside is stored again every time. So is a blank message after a visible
  one: it adds nothing but a line break, so it is compared with the last line that is not empty.
  `LogDeduplication.RepeatIsDropped` is the exact condition.
- The loop of `cleanVolumeBestEffort` over the ancestors of a path never ends when the volume is `/`
  and there is a path to skip, as `/` is its own parent; for every other absolute path it does
  (`VolumeCleaner.AncestorLoopEndsIff`).
- `updateCert` adds the line feed that should separate the two certificate files at the end of the
  second one (`CertificateWatch.ChainSeparatesIff`).
- A second `Describe` replaces the counters, and what they had counted is gone
  (`Metrics.SecondDescribeForgets`). `Exporter.Valid` therefore carries what was discarded as a term of
  its own: published = counter + skipped + discarded + cached. The law without that term survives a
  `Describe` for a series if and only if its counter shows zero at that moment (the contract of
  `Metrics.Exporter.Describe`), as at the one call at registration.
- Requests for metrics are served one at a time, but a scrape goes on reading the shared values after
  its request has been served, and nothing keeps scrapes from overlapping. The request of a second scrape
  replaces the values under the first one: what was published before the first request is lost, and what
  was published before the second is counted twice (`MetricsOverlap.OverlapMiscounts`). The law holds in
  the end if and only if no request is served while another scrape has counters left to read
  (`MetricsOverlap.RequestIsSafeIff`).
- Upper-casing turns the long s into an S, so a keyword may be spelled with it
  (`RedactWords.LongSIsSensitive`).

## Assumptions

- Mirror: lines are appended whole and fit the scanner; the path always exists once it has been
  created; rotation renames the file and creates a new one in one step; the writer appends to the
  newest file only. `Mirror.Harmless` is the one assumption about timing: the log is rotated only while
  the mirror has its newest file open, or has not looked yet, or has ended or is about to, or while that
  file is empty and the mirror is not between a look at the path and the open that follows it.
- Rotating logger: the file system makes no errors, except that files may be missing, and different
  instance numbers give different file names. The lock makes `Append` sequential.
- Signals: commands run at startup, `StopMetricsGathering`, `stopQueueManager` and the other deferred
  calls return. The main thread may fail at any point of startup.
- Certificates: the library's verdict on a chain and a key is any fixed function of the two.
- Metrics: one connection, with unique and stable keys; publications are not negative (the counters of
  the client library refuse negative values); a vector takes two label values for Native HA metrics and
  one otherwise (`objectType` is never set); a label that does not fit its vector is logged and lost, as
  in the source, and belongs to no series.
- Volumes: `filepath.Dir` and the walk are modelled on cleaned absolute paths; some paths may resist
  deletion, and then so do the directories above them.

## Model

| member | source | states |
|---|---|---|
| Mqscredact.Redact | internal/mqscredact/mqscredact.go:122-251 | for every text the scanner, with its nested loops and flags, ends and returns what the one-rune-at-a-time transducer writes for the trimmed text |
| Mqscredact.GetParameterString | internal/mqscredact/mqscredact.go:86-108 | the reader is moved past exactly the runes of the value (to the closing bracket, or to the end), and these are returned behind `(` |
| Mqscredact.FindEndOfParameterString | internal/mqscredact/mqscredact.go:32-82 | a quoted string is read to its quote, comment lines inside it included, and nothing of what follows is consumed |
| Mqscredact.IsSensitiveCommand | internal/mqscredact/mqscredact.go:256-264 | true if and only if one of the keywords occurs somewhere in the word |
| RedactMachine.OutParameter | internal/mqscredact/mqscredact.go:132-142 | a value is copied, or swallowed when redacting, and the machine goes on behind it in one fixed state |
| RedactTheorems.EmitAhead | internal/mqscredact/mqscredact.go:122-251 | the simulation step: reading what one rune has emitted takes the run on the output along with the run on the input, and emits the same again |
| RedactTheorems.RedactIsIdempotent | internal/mqscredact/mqscredact.go:122-251 | redacting redacted text changes nothing, for every text, with values, quotes and comments closed or not |
| RedactTheorems.RedactedParameter | internal/mqscredact/mqscredact.go:132-141 | the output for a parameter in a redacted position is the text before it, the mask, and the text after it read from the state after a parameter |
| RedactTheorems.RedactedValueIsSecret | internal/mqscredact/mqscredact.go:122-251 | any two values in a redacted position give the same whole output, whether they close or run to the end of the text |
| RedactTheorems.ClosedAtBracket | internal/mqscredact/mqscredact.go:86-108 | a text is exactly one value if and only if it ends with a bracket before which the scan is outside quotes and has not closed: the first such bracket |
| RedactTheorems.ClosedScan | internal/mqscredact/mqscredact.go:32-108 | a value that closes is consumed the same whatever follows it |
| RedactTheorems.ValueTaken | internal/mqscredact/mqscredact.go:32-108 | what is consumed closes exactly at its end, or is all there is |
| RedactTheorems.CommentCannotEndQuote | internal/mqscredact/mqscredact.go:42-78 | no comment line inside a quoted value ends the quote, whatever it contains and whatever line number precedes it |
| RedactWords.LexRead | internal/mqscredact/mqscredact.go:145-248 | from any state whose gap and continuation flags come from what was read since the last word, up to the next bracket the text is copied, and the flag for redaction is then set if and only if it was before or one of the words read is sensitive |
| RedactWords.OutIsShown | internal/mqscredact/mqscredact.go:122-264 | the transducer writes what the two-pass reading shows, from the start of a text and after any parameter |
| RedactWords.ParseIsLossless | internal/mqscredact/mqscredact.go:122-251 | the pieces of the two-pass reading, put together, are the text |
| RedactWords.RedactHidesExactly | internal/mqscredact/mqscredact.go:155-264 | the output is the trimmed input with the values of the hidden parameters replaced by the mask, and a parameter is hidden if and only if a word since the previous one contains a keyword |
| RedactWords.RedactKeepsTheRest | internal/mqscredact/mqscredact.go:122-251 | when no parameter is hidden the output is the trimmed input |
| RedactWords.LongSIsSensitive | internal/mqscredact/mqscredact.go:230-234 | a word that spells PASSWORD with an S, a small s or a long s in either place is a sensitive word |
| RedactWords.ParseShape | internal/mqscredact/mqscredact.go:86-108 | every piece but the last is a parameter whose value closes; only a value that reaches the end of the text may stay open |
| RedactSplitting.JoinedWordGoesOn | internal/mqscredact/mqscredact.go:155-183 | any number of continuations with the rest of their lines, line numbers and comment lines is copied, and what follows is written as if they were not there |
| RedactSplitting.SplittingChangesNothing | internal/mqscredact/mqscredact.go:155-264 | splitting a keyword, or keyword and bracket, over any number of lines adds the joiner to the output and changes nothing else in it |
| RedactSettings.SensitiveIff | internal/mqscredact/mqscredact.go:26-27 | the words that hide a value are those that spell LDAPPWD, PASSWORD or SSLCRYP somewhere, letter by letter in any case, and no others |
| RedactSettings.ValueIff | internal/mqscredact/mqscredact.go:86-108 | a text is a value if and only if it is plain text and quoted strings, ending with the first bracket outside both, where a quote on a comment line of a string does not end it |
| RedactSettings.QuotedValueIsHidden | internal/mqscredact/mqscredact.go:102-104 | a value in quotes of either kind is hidden as a whole, brackets in it included |
| RedactSettings.ShownValueIsCopied | internal/mqscredact/mqscredact.go:135-136 | in a position that is shown the whole value is copied, and what is written around it does not depend on it |
| RedactSettings.OneSetting | internal/mqscredact/mqscredact.go:122-251 | a setting is logged with stars for its value if its name spells a keyword, and unchanged otherwise |
| RedactSettings.AdjacentSettings | internal/mqscredact/mqscredact.go:110-118 | after a value everything starts afresh, and a digit that follows it directly belongs to the next name |
| RedactSettings.GapDecides | internal/mqscredact/mqscredact.go:165-183 | white space and signs between two words: with a sign, in any place and on any number of lines, they are one word, and without a sign each counts by itself |
| RedactSettings.OpenValueIsHidden | internal/mqscredact/mqscredact.go:86-95 | a sensitive value that is never closed is hidden to the end of the text |
| RedactSettings.TwoSettings | internal/mqscredact/mqscredact.go:132-142 | of two settings each is decided by its own name |
| RedactSettings.CommentIsIgnored | internal/mqscredact/mqscredact.go:190-218 | a comment line is copied, and a keyword in it hides nothing |
| RedactSettings.CommentAfterValueIsIgnored | internal/mqscredact/mqscredact.go:110-118 | an asterisk directly after a value begins a comment as well |
| RedactSettings.NumberIsIgnored | internal/mqscredact/mqscredact.go:155-163 | a line number is copied and does not belong to the name after it |
| RedactSettings.ContinuedName | internal/mqscredact/mqscredact.go:155-248 | a name continued with either sign, over line numbers and comment lines, is decided as a whole |
| RedactSettings.SurroundingBlanks | internal/mqscredact/mqscredact.go:123 | white space of any kind around the text changes nothing |
| Mirror.WriterGrows | cmd/runmqserver/mirror.go:74-76 | appends and rotations only extend the log and never move the place where a file starts in it |
| Mirror.LineKeepsLooping | cmd/runmqserver/mirror.go:55-72 | the line read next is the next line of the log |
| Mirror.StepKeepsInv | cmd/runmqserver/mirror.go:77-200 | every step of reader, writer and main keeps the position, the delivered lines and the marks of the current pass in agreement |
| Mirror.ReadingBeginsThere | cmd/runmqserver/mirror.go:83-149 | whatever is written and rotated between the first look at the path and the seek, reading begins at the start of the log if there was no file, at the start of the file if told to, otherwise at its end |
| Mirror.DeliveredExactlyOnce | cmd/runmqserver/mirror.go:77-184 | in every interleaving the lines delivered are those of the log from the starting point on, in order, without loss or repetition across rotations |
| Mirror.PassDeliversAll | cmd/runmqserver/mirror.go:151-184 | a pass of the loop has delivered everything written before the pass began |
| Mirror.ShutdownIsComplete | cmd/runmqserver/mirror.go:115-197 | however the goroutine returns after a cancellation, from its last pass or because no file had appeared, every line written before the cancellation has been delivered |
| Mirror.ShutdownIsBounded | cmd/runmqserver/main.go:309-318 | after a cancellation the goroutine makes a bounded number of steps, plus one for each line written meanwhile, so the deferred wait ends |
| Mirror.AtMostTwoMorePasses | cmd/runmqserver/mirror.go:185-197 | the cancellation is seen at most twice, and exactly twice when the goroutine has ended |
| Mirror.MissedFileStaysMissed | cmd/runmqserver/mirror.go:161-175 | a file that is not the newest and not open is never opened later, in any run |
| Mirror.RotationGivesUpUnopened | cmd/runmqserver/mirror.go:163-166 | after a rotation the old file can still be read if and only if it is open at that moment |
| MirrorLimit.DeliveredAreTraced | cmd/runmqserver/mirror.go:55-72 | in any run whatever, each line delivered is the line of the log at the place recorded for it |
| MirrorProgress.MirrorKeepsMirroring | cmd/runmqserver/mirror.go:151-196 | in every run from a state past the first look, with a file there and no cancellation seen, all that was in the log has been delivered after as many steps as there were lines to deliver and six more, whatever is written, rotated or cancelled meanwhile |
| MirrorProgress.MirrorCatchesUp | cmd/runmqserver/mirror.go:151-196 | left alone, the mirror has then delivered exactly the log from the starting point on |
| MirrorProgress.CancelledMirrorEnds | cmd/runmqserver/mirror.go:150-197 | cancelled at any moment and left alone, the mirror ends and has delivered the log |
| MirrorProgress.WriterDoes | cmd/runmqserver/mirror.go:161-166 | what an append, a rotation, the creation of the file and a cancellation do to the log |
| MirrorLimit.RotationRepeatsIff | cmd/runmqserver/mirror.go:155-183 | from every state reached, a rotation can make the mirror repeat a line or deliver it late if and only if it falls between a look at the path and the open that follows, and the mirror is not about to end |
| MirrorLimit.RotationLosesIff | cmd/runmqserver/mirror.go:163-166 | from every state reached, a rotation can make the mirror pass a line over if and only if it is not harmless |
| MirrorLimit.HarmlessIsWeakest | cmd/runmqserver/mirror.go:77-184 | as long as rotations have been harmless, every continuation mirrors every line once and in order if and only if the next rotation is harmless as well |
| MirrorLimit.RotationInWindowRepeats | cmd/runmqserver/mirror.go:155-183 | the schedule of a repetition: a rotation before the reopen makes the next line come out twice, from the same place in the log |
| MirrorLimit.WindowIsReached | cmd/runmqserver/mirror.go:155-175 | a run without any harmful rotation comes into the window |
| MirrorLimit.StaleOffsetPassesLine | cmd/runmqserver/mirror.go:99-149 | a rotation between the first look and the first open: the file that is open has two lines, and only the second is mirrored |
| LogText.LastLineSplits | pkg/logrotation/logrotation.go:222-270 | the last line of any file is free of line breaks, starts the file or follows a break, and only breaks come after it |
| LogText.TrimLineFeed | pkg/logrotation/logrotation.go:85-86 | trimming undoes the line feed that ends a stored message |
| LogText.SpaceIsWhite | pkg/logrotation/logrotation.go:86 | the bytes taken for white space are exactly the UTF-8 encodings of the runes that Unicode calls white space |
| LogText.TrimSpaceSplits | pkg/logrotation/logrotation.go:86 | trimming takes away white space at both ends, all there is, and nothing else |
| LogRotation.RotatingLogger.Init | pkg/logrotation/logrotation.go:61-75 | all instances exist afterwards, and none that existed has changed |
| LogRotation.RotatingLogger.PerformLogRotation | pkg/logrotation/logrotation.go:160-186 | for every number of files, file i-1 becomes file i, missing ones stay missing, the last goes, file 1 is empty, and no other file is touched |
| LogRotation.RotatingLogger.GetLogLastLine | pkg/logrotation/logrotation.go:222-270 | the backward scan with its reversal returns the last line, for any contents |
| LogRotation.RotationShifts | pkg/logrotation/logrotation.go:160-186 | after a rotation of n files file 1 is empty, each of the others is what the one before it was or missing as that was, and files of other numbers are untouched |
| LogRotation.RotatingLogger.Append | pkg/logrotation/logrotation.go:81-158 | the whole directory afterwards: unchanged for a repeat, otherwise the message at the end of file 1, rotated first when it would reach the limit |
| LogRetention.AppendedFile | pkg/logrotation/logrotation.go:81-186 | what a call leaves in each single file |
| LogRetention.RecordKeepsLayout | pkg/logrotation/logrotation.go:81-158 | every call leaves each file holding the accepted messages between two cuts of the stream |
| LogRetention.RecordCountsRotations | pkg/logrotation/logrotation.go:117-136 | the files are rotated by exactly the accepted messages that would have made file 1 reach the limit |
| LogRetention.FilesAreTheEndOfTheStream | pkg/logrotation/logrotation.go:81-186 | after any run, file n to file 1 are the end of the stream of accepted messages, cut between two messages |
| LogRetention.FileIsBounded | pkg/logrotation/logrotation.go:117-156 | each file is smaller than the limit or holds at most one message |
| LogRetention.RecordKeepsBounds | pkg/logrotation/logrotation.go:188-197 | a rotation happens only when the file is full but for less than one longest message |
| LogRetention.RetentionBounds | pkg/logrotation/logrotation.go:117-197 | over any run at most n * (maxFileBytes - 1) bytes are kept, and after n - 1 rotations at least (n - 1) * (maxFileBytes - longest) bytes besides file 1 |
| LogDeduplication.RepeatIsDropped | pkg/logrotation/logrotation.go:77-80 | for any file contents, the message written last is dropped when it is repeated if and only if it is a single line and the line it has become part of trims to it; unless it goes on with a rune of that line, that means nothing visible before it on its line (for a blank message, on the last line before); in a file that the logger wrote, a visible message is dropped if and only if it is a single line |
| LogDeduplication.DifferenceDecides | pkg/logrotation/logrotation.go:199-220 | after a one-line message another is accepted if and only if it differs |
| LogDeduplication.DeduplicationCollapsesRepeats | pkg/logrotation/logrotation.go:81-156 | of one-line messages with any mixture of flags exactly those are left out that are to be deduplicated and repeat the one before, across rotations |
| LogDeduplication.RepeatsAreLeftOut | pkg/logrotation/logrotation.go:81-156 | one message at a time: after any run it is left out if and only if its flag is set and the message before it was the same |
| LogDeduplication.EverythingIsKept | pkg/logrotation/logrotation.go:201-203 | without deduplication all messages are accepted, whatever they are |
| LogDeduplication.PlainIsAppended | pkg/logrotation/logrotation.go:79-81 | without deduplication, for every directory, text and limit, file 1 ends with the trimmed message and one line feed, after what it held or, if that would have reached the limit, alone |
| LogDeduplication.ComparedByteByByte | pkg/logrotation/logrotation.go:211-218 | a deduplicated message is dropped if and only if it agrees with the last line byte by byte, both trimmed, a line feed counting as a space |
| SignalProtocol.EveryRunIsSafe | cmd/runmqserver/signals.go:42-106 | in every run: no reap while startup commands may still run, one stop of the queue manager and only after a stop signal, startup and the stop of the metrics, each job sent once and in order and both before the server is marked ready, and the channel closed once, after startup, the stop and a final reap, with no send after it |
| SignalProtocol.NoZombieIsForgotten | cmd/runmqserver/signals.go:44-50 | over every run, once the second job has been sent, whenever the handler waits with no child signal pending there is no zombie |
| SignalProtocol.ChildSignalReaps | cmd/runmqserver/signals.go:101-103 | after a child signal the handler does not wait again before a wait for children has found none left |
| SignalProtocol.ReapNowReaps | cmd/runmqserver/signals.go:48-49 | nor after the job to reap, be it before or after a stop signal |
| SignalProtocol.StageNeverRises | cmd/runmqserver/signals.go:54-108 | no signal, no child and no step of a thread takes the protocol back |
| SignalProtocol.NeverStuck | cmd/runmqserver/signals.go:54-108 | from the arrival of a stop signal, at any point of startup, until main has returned, some thread can make a step that brings the end closer |
| SignalProtocol.StartupCompletes | cmd/runmqserver/main.go:450-467 | with or without a stop signal a run comes to rest only when main waits for the end with startup marked, or has returned |
| SignalProtocol.StepsAreBounded | cmd/runmqserver/signals.go:54-124 | the threads make a bounded number of steps, to which further stop signals add nothing and each child and child signal a constant |
| SignalProtocol.RestIsExit | cmd/runmqserver/signals.go:54-108 | a run with a stop signal in it, at any point of startup, comes to rest only when main has returned |
| SignalProtocol.ShutdownEnds | cmd/runmqserver/signals.go:54-108 | once a stop signal has arrived and nothing more does, every schedule makes at most the bounded number of steps, and main has returned when none is left to make |
| SignalProtocol.SendsAreReceived | cmd/runmqserver/main.go:450-458 | whenever main is sending, the channel is open and the handler receives, or has a step to make that leads back to receiving |
| SignalProtocol.MainEndsLast | cmd/runmqserver/main.go:466-468 | when the channel has been closed the stop is complete and startup was marked |
| VolumeCleaner.AncestorLoopEndsIff | cmd/runmqserver/crtmqvol.go:50-55 | the loop over the ancestors of a path ends if and only if the volume is not the root directory |
| VolumeCleaner.MarkSkipPaths | cmd/runmqserver/crtmqvol.go:46-55 | below the volume exactly the volume, the paths to skip and the directories between are marked, though prefixes are compared as text |
| VolumeCleaner.EntryWalked | cmd/runmqserver/crtmqvol.go:59-74 | walking one more entry of a directory removes what must go under that entry and nothing else |
| VolumeCleaner.KeptIsReached | cmd/runmqserver/crtmqvol.go:50-63 | the walk gets down to a path if and only if the path is one to keep |
| VolumeCleaner.Volume.CleanVolumeBestEffort | cmd/runmqserver/crtmqvol.go:45-77 | exactly what remains in any tree: everything outside the volume, and in it the volume, the paths to skip, the directories between, and what could not be deleted |
| CertificateWatch.CertificateMonitor.UpdateCert | internal/metrics/tlswatch.go:154-208 | a load that succeeds installs the chain of both files in order, the key and their serial together, and one that fails changes nothing |
| CertificateWatch.ServedPairIsLastLoaded | internal/metrics/tlswatch.go:88-208 | at every moment of every run the pair served is that of the last load that succeeded, and the serial on record is its serial |
| CertificateWatch.ServedIs | internal/metrics/tlswatch.go:161-202 | what is served is the key that was read, and the certificate followed by that of the authority, with the serial found for the two |
| CertificateWatch.LoadCompletes | internal/metrics/tlswatch.go:118-132 | a load that is not disturbed ends, and serves the disk if it fits together, and otherwise what was served before |
| CertificateWatch.QuietMeansUpToDate | internal/metrics/tlswatch.go:109-148 | when no event is left and the worker waits, the last load has read the disk as it is, unless an event was dropped while a load was under way |
| CertificateWatch.MissedIsTaken | internal/metrics/tlswatch.go:110-116 | over any run, a change counts as missed if and only if an event was taken while a load was under way and no load has begun since |
| CertificateWatch.DropWhileSleepingIsHarmless | internal/metrics/tlswatch.go:109-132 | an event dropped while the worker sleeps loses nothing: when the worker next waits, it has read the disk with that change |
| CertificateWatch.PollCatchesUp | internal/metrics/tlswatch.go:136-142 | after a poll that finds the worker waiting, whatever was missed before, the worker has read the disk as it is when it next waits |
| SyncWriter.Registry.For | pkg/syncwriter/syncwriter.go:47-66 | the same lock for a writer at every call, one lock for both standard streams, and different locks otherwise |
| SyncWriter.OutputIsSerialised | pkg/syncwriter/syncwriter.go:22-36 | for any number of threads, any schedule, short writes and failures, the merged stream of writers with one lock is what finished calls wrote, one after the other, and the start of at most one more |
| SyncWriter.StreamsAreWholeMessages | pkg/syncwriter/syncwriter.go:22-66 | from a new registry on, with writers asked for at any time, and as long as no write fails, the console and every other stream is the concatenation of the whole messages of the finished calls whenever nobody is writing to it |
| SyncWriter.CallsAreWhole | pkg/syncwriter/syncwriter.go:26-36 | a call that has returned wrote the start of its message, and all of it when nothing failed |
| SyncWriter.FailureEndsCall | pkg/syncwriter/syncwriter.go:28-32 | a write that fails ends the call with what it took, frees the lock, and affects no other thread |
| SyncWriter.StepKeepsWhole | pkg/syncwriter/syncwriter.go:22-36 | every step of every thread keeps the merged stream a sequence of messages |
| SyncWriter.LocksGivenOutSerialise | pkg/syncwriter/syncwriter.go:42-58 | the locks given out make the console one serialised stream, and every other writer one of its own |
| Metrics.AccumulateAdds | internal/metrics/update.go:211-217 | a publication raises what is cached for its series by its value and leaves every other series alone, whatever labels share a series |
| Metrics.AddValues | internal/metrics/exporter.go:94-115 | the loop over the labels, in any order, adds to every series the sum over its labels |
| Metrics.SetValues | internal/metrics/exporter.go:120-146 | the gauges show the labels of the snapshot and no others |
| Metrics.SeriesAre | internal/metrics/exporter.go:101-108 | the label values: the queue manager alone for its own label, the instance without its prefix and then the queue manager for Native HA, the object and then the queue manager otherwise |
| Metrics.NativeHaIsCounted | internal/metrics/exporter.go:94-115 | a delta published for an instance and scraped raises the counter of instance and queue manager, in this order, by its value, and no other of the metric |
| Metrics.QueueManagerIsCounted | internal/metrics/exporter.go:101-102 | a delta of the queue manager is counted for the queue manager |
| Metrics.GaugeShows | internal/metrics/exporter.go:120-146 | after a scrape a gauge shows the value published, in base units, for its series, and nothing else |
| Metrics.Exporter.Publish | internal/metrics/update.go:76 | what is published is recorded, and conservation kept |
| Metrics.Exporter.UpdateMetrics | internal/metrics/update.go:195-226 | the values become the snapshot of the cache, and the cache is emptied |
| Metrics.Exporter.Describe | internal/metrics/exporter.go:55-80 | the counters start at zero, what they showed is discarded, and the law without a term for that survives for a series if and only if its counter showed zero |
| Metrics.Exporter.Collect | internal/metrics/exporter.go:82-156 | a scrape with no other in between: for every series the counter rises by exactly what was cached, or the first time that is skipped instead; the gauges show the snapshot only; conservation is kept |
| Metrics.SecondDescribeForgets | internal/metrics/exporter.go:63-70 | an exporter in which a published unit is neither counted nor skipped nor cached: the case in which the condition of Describe fails |
| MetricsScrapes.StepBalances | internal/metrics/exporter.go:82-156 | with any number of scrapes under way, nothing but serving a request moves the ledger, and that moves it by the scrapes still to read times what they will read instead of what they should |
| MetricsScrapes.OrderlyRunsConserve | internal/metrics/update.go:79-85 | in every run in which no request is served while another scrape has counters left to read, published = counter + skipped + discarded + cached for every series |
| MetricsScrapes.SkippingEnds | internal/metrics/exporter.go:153-155 | in every run, once a scrape has returned nothing is skipped any more |
| MetricsScrapes.ReadRaisesCounter | internal/metrics/exporter.go:94-110 | from then on reading a metric raises its counters by what it shows |
| MetricsOverlap.RequestIsSafeIff | internal/metrics/update.go:79-85 | from every state of such a run, whatever is published before the next request, the law holds once everything has been read if and only if that request is served while nothing is left to read |
| MetricsOverlap.OverlapMiscounts | internal/metrics/exporter.go:85-115 | two scrapes that overlap: the ledger misses what was published before the first request and has what was published before the second twice |
| MetricsOverlap.ScrapeInProgress | internal/metrics/exporter.go:82-88 | a run without overlap comes to a state in which a scrape has a counter left to read, so that the next request can come too early |
| Sensitive.AppendBytes | internal/sensitive/sensitive.go:45-47 | the runtime's append: in place while the capacity lasts and then the same array, otherwise a new array and the old one as it was |
| Sensitive.Buffer.Write | internal/sensitive/sensitive.go:43-56 | what is visible grows by what is written, and a place that is left is zero over all it ever held, as are those left before |
| Sensitive.Buffer.Append | internal/sensitive/sensitive.go:62-64 | the contents of the other buffer are added, also when that is empty or the same buffer, and a place that is left is recorded as overwritten |
| Sensitive.Buffer.Clear | internal/sensitive/sensitive.go:66-69 | nothing the buffer ever held is left in any place |

## Left out

- Real time: sleeps, debouncing, poll intervals and timeouts are delays of any length.
- Errors of the file system other than "not found", file permissions, and messages about such errors.
- Text that is not valid UTF-8 in the redactor; the one-byte look-ahead of the redactor is taken as a look at a rune, which decides the same.
- Lines that do not fit the scanner of the mirror, lines appended in pieces, and the filter `mirrorFunc`, which sees every line delivered.
- A path that vanishes again after it was created, while the mirror waits for it.
- Fairness: the signal handler may keep choosing child signals while they keep coming; each such choice is counted in `SignalProtocol.StepsAreBounded`, and `SignalProtocol.NeverStuck` says that a step forward is open as well.
- The exit status of `endmqm` when reaping runs at the same time, and what `stopQueueManager` and `StopMetricsGathering` do.
- The reap loop and the select loops are steps of a transition system, not methods, since other threads and children act between any two of their operations.
- Metrics.Exporter: its methods run one after the other; scrapes that overlap are the subject of `MetricsScrapes` and `MetricsOverlap`, where reading one metric and serving one request are single steps, and the gauges are left out. The source reads and replaces the same maps without a lock, so finer interleavings than that are data races. Reconnecting, which builds new metrics, and stopping are not modelled.
- Metrics.Normalise: real numbers in place of floating point; negative values, which the library replaces by zero, do not occur.
- Metrics.Exporter.Valid: a label that does not fit its vector is logged and lost in the source, and no series accounts for it.
- VolumeCleaner.Volume.CleanVolumeBestEffort: for the root directory with a path to skip the source never returns, so that call is excluded; relative paths, symbolic links and changes during the walk are not modelled.
- Sensitive.Buffer: finalizers, pinning and the string that shares the buffer; writing to an empty buffer, on which the source panics.
- The watch goroutines end when their context does; that, and certificate parsing, is not modelled.
- Running MQ commands, templates, keystores, TLS set-up, licences, readiness files and probes, metric names, and the authentication service: input and output around tools outside the repository, or decided by a branch or two.
