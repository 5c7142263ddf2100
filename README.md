# paramedic-agent, modelled in Dafny

paramedic-agent is a small Go agent. It downloads a script, runs it as a
child process, and ships the output to CloudWatch Logs or to chunked S3
objects. It forwards signals that it finds as a marker object in S3, and it
turns the child's termination into an exit code. This project models the
logic at the heart of those jobs and proves properties of the model:

- **Exit classification.** Three classifiers map an abstract wait outcome to
  a code:
  - `exitStatusFromError` uses the sentinel 255 (`ExitStatus`, exitstatus.dfy).
  - `CmdResultS3Uploader.Upload` uses -1 (`CmdResult`, cmd_result.dfy).
  - The inline classification in `startWithOptions` uses 254 (`Cli`, cli.dfy).

  A wait outcome is `NoError`, `ExitErr(text, sys)` or `OtherErr(text)`.
  `sys` holds the answers of `WaitStatus.Exited()` and `ExitStatus()` when
  `Sys()` is a wait status.
- **Signal watcher** (`SignalWatcher`, signal_watcher.dfy). `Once` sorts one
  `GetObject` answer into not-found, error or a signal. `Start`'s endless
  poll loop runs over a finite sequence of lookup answers.
- **Command line** (`Cli`, cli.dfy). `parseFlag` checks the mandatory options
  in order. `Start` maps the outcome to an exit code. The `select` loop of
  `startWithOptions` consumes a sequence of signal and command-exit events.
- **CloudWatch Logs writer** (`Lines`, lines.dfy; `LogEvents` and
  `LogsWriter`, writer.dfy):
  - The writer is a class whose buffer and sequence token the methods update
    in place.
  - `bufio.ScanLines` splitting and the millisecond timestamps are pure
    functions.
  - The retry loop of `flushBuffer` sends the same batch with the same token
    and waits 1s, 2s, 4s, … between attempts.
- **S3 chunk writer** (`S3Chunks` and `S3Writer`, s3_writer.dfy):
  - Chunks and the writer are classes mutated in place. A ghost list of
    chunk values is kept in step with the chunk objects.
  - The invariant `WellFormed` covers four things:
    - indices are consecutive from 1;
    - closed chunks form a prefix;
    - the writer, once closed, has all chunks closed;
    - purged bodies followed by buffered bodies are exactly the bytes
      written.
  - Upload-then-purge removes exactly the closed chunks that were uploaded
    successfully, from the front.
  - `Write` reproduces the source's behaviour on overflow, as written.
    s3_writer.go:143 re-declares `chunk` inside the `if`. The bytes of an
    overflowing write therefore go to the chunk that was just closed, and the
    new chunk stays empty (`S3Chunks.OverflowLandsInClosedChunk`).

Everything the agent does not compute itself is a parameter:
- AWS calls (`PutLogEvents`, `CreateLogStream`, `PutObject`, `GetObject`)
  are given as sequences of answers.
- JSON encoding and decoding, `flag` parsing, `time.ParseDuration` and
  `time.Now` are given as functions or values.

Go byte strings are modelled as `seq<char>`, one character per byte.
Goroutines become explicit steps (`Tick`, `Close`). A Go loop that would run
forever is followed for as many answers as it is given, and the method
reports whether it finished.

Three behaviours of the code are easy to miss:
- Nothing deletes the signal marker, so a marker that stays in place is
  forwarded again on every poll (`SignalWatcher.RepeatedMarkerSentTwice`).
- A command line that does not validate makes `Start` return 1, a code
  distinct from both sentinels 254 and 255.
- In `startWithOptions`, a wait status gives its `ExitStatus()` whether or not
  the process exited normally. A missing wait status gives 254 there, where
  `exitStatusFromError` gives 255.

## Model

| member | source | states |
|---|---|---|
| Common.DecimalValue | paramedic/s3_writer.go:104 | The digits `%d` writes for a natural number denote that number. |
| Common.FormatIntInjective | paramedic/s3_writer.go:104 | `%d` writes different integers differently. |
| ExitStatus.ExitStatusFromError | paramedic/exitstatus.go:9-25 | The error is nil exactly for a nil input or a normal exit. Every other outcome gets 255. A normal exit keeps its status. Each abnormal case carries its own message, and any other error is returned as is. |
| ExitStatus.ClassifierMatchesKind | paramedic/exitstatus.go:11-26 | The classifier agrees with an independent three-way reading (exited / signalled abnormally / agent-internal error). Both abnormal kinds share the sentinel. |
| CmdResult.ResultOf | paramedic/cmd_result.go:44-62 | The record's error text is the input error's text. The status is -1 for a non-`ExitError` and for an `ExitError` without a wait status, and `ExitStatus()` otherwise. A nil input is excluded because `err.Error()` is called on it. |
| CmdResult.Upload | paramedic/cmd_result.go:58-77 | A serialisation failure stores nothing and is returned. Otherwise exactly one object with the encoded record goes to the uploader's bucket and key, and the store's answer is the result. |
| CmdResult.RecordIgnoresExited | paramedic/cmd_result.go:50-55 | The recorded status depends only on `ExitStatus()`; the two answers of `Exited()` give the same record. |
| CmdResult.RecordVersusClassifier | paramedic/cmd_result.go:44-56 | The record and `exitStatusFromError` agree on a normal exit. They differ when the process did not exit normally (sentinel versus raw status) and for other errors (-1 versus 255). |
| SignalWatcher.Once | paramedic/signal_watcher.go:48-76 | "Not found" happens exactly for a NoSuchKey error, which is not an error. Other lookup, read and decode failures are errors and never a signal. A signal is found exactly when the body is read and decoded, and it is the decoded number. |
| SignalWatcher.Emit | paramedic/signal_watcher.go:31-41 | One poll sends at most one signal, and sends one exactly when a signal was found. |
| SignalWatcher.Start | paramedic/signal_watcher.go:25-46 | The signals sent are the found signals of the polls, in poll order. Errors and not-found are skipped and never end the loop. |
| SignalWatcher.Emitted | paramedic/signal_watcher.go:28-42 | A run of polls sends at most one signal per poll. |
| SignalWatcher.EmittedAppend | paramedic/signal_watcher.go:28-42 | Runs of polls compose: two runs back to back send the first run's signals and then the second's. |
| SignalWatcher.EmittedCount | paramedic/signal_watcher.go:28-42 | Exactly as many signals are sent as polls found a marker. |
| SignalWatcher.RepeatedMarkerSentTwice | paramedic/signal_watcher.go:28-42 | A marker still present on the next poll is sent again. |
| Cli.ParseFlag | paramedic/cli.go:54-108 | A flag-set parse error is returned as is. A successful result has `Args` equal to the positional arguments, of which there is at least one. |
| Cli.FirstEmpty | paramedic/cli.go:71-88 | It finds the first option in the list whose value is empty; every option before it is set, and the end of the list means all are set. |
| Cli.ParseFlagValidation | paramedic/cli.go:71-107 | The first empty option, in the order output-log-group, output-log-stream, signal-s3-bucket, signal-s3-key, script-s3-bucket, script-s3-key, is the one named in the error. With all six present, no positional argument gives "command is not specified". Otherwise a `ParseDuration` error for either interval is returned as is, and when both parse the result is `Ok` with the six flag values, the positional arguments as `Args` and the two durations. Success implies all six are present. |
| Cli.ClassifyExit | paramedic/cli.go:132-151 | The loop ends with no error exactly for a nil exit, with code 0. A wait status gives its `ExitStatus()` and "command exited with N". A missing wait status and any other error give 254. |
| Cli.ExitIndex | paramedic/cli.go:129-149 | It finds the first command-exit event; every event before it is a signal. |
| Cli.StartWithOptions | paramedic/cli.go:110-152 | A start failure returns that error with 254 and forwards nothing. Otherwise every signal before the first command exit is forwarded in order, and that exit is classified; with no exit event the agent is still waiting. |
| Cli.StartCode | paramedic/cli.go:45-51 | A loop that returned an error gives its code. A clean return gives 0. |
| Cli.Start | paramedic/cli.go:38-52 | A validation failure gives 1 and runs nothing. A start failure gives 254. Otherwise the code is that of the first command exit, and the forwarded signals are those before it. |
| Cli.LaterEventsIgnored | paramedic/cli.go:129-149 | Events after the first command exit change neither the forwarded signals nor the exit. |
| Cli.AgentCodeFollowsCommand | paramedic/cli.go:132-151 | The agent's exit code equals the command's whenever it has a wait status, whatever `Exited()` says. A clean exit gives 0, everything else 254, and it agrees with `exitStatusFromError` on normal exits. |
| Lines.DropCR | paramedic/writer.go:134-135 | A trailing carriage return is removed, exactly one; text that does not end in one is unchanged. |
| Lines.ScanLines | paramedic/writer.go:133-141 | Every token consumes at least one character, and non-empty text yields at least one token. |
| Lines.ScanLinesCRLF | paramedic/writer.go:133-141 | A line ended by CRLF gives the line without its carriage return, and scanning goes on after the newline. |
| Lines.ScanLinesNoNewline | paramedic/writer.go:133-141 | No line the scanner yields contains a newline. |
| Lines.ScanLinesCount | paramedic/writer.go:133-141 | The scanner yields one line per newline, plus one for a non-empty unterminated tail. No empty token follows a final newline. |
| Lines.ScanLinesUnlines | paramedic/writer.go:133-141 | Without carriage returns, joining the lines with newlines gives back the text; a newline is added after an unterminated tail. |
| Lines.ScanLinesExample | paramedic/writer_test.go:22-30 | "abc\ndef" splits into "abc" and then "def". |
| LogEvents.Millis | paramedic/writer.go:138 | `UnixNano()/1000/1000` is the time in whole milliseconds: one division by a million, rounded toward the epoch. |
| LogEvents.EntryEvents | paramedic/writer.go:133-141 | An entry gives one event per scanned line. |
| LogEvents.EventsOfSnoc | paramedic/writer.go:132-142 | Appending one entry appends its line events. |
| LogEvents.EventsOfAppend | paramedic/writer.go:132-142 | Events follow buffer order: the events of two batches back to back are the first's followed by the second's. |
| LogEvents.EventsOf | paramedic/writer.go:131-142 | A batch gives exactly one event per scanned line of each entry, counted independently entry by entry. |
| LogEvents.FirstEventExample | paramedic/writer_test.go:22-30 | The first event sent for the write "abc\ndef" is "abc", stamped with the write's time in milliseconds. |
| LogEvents.BuildEvents | paramedic/writer.go:131-142 | The nested loops build exactly the events of the batch: the lines of each entry in order, each stamped with its entry's milliseconds. |
| LogEvents.Request | paramedic/writer.go:144-151 | The request carries the batch's events. It carries a token exactly when the writer's token is not empty, and then it carries that token. |
| LogEvents.Backoffs | paramedic/writer.go:114-124 | One wait per failed attempt. |
| LogEvents.BackoffsDouble | paramedic/writer.go:114-123 | The j-th wait of the retry loop is 2^j seconds. |
| LogEvents.BackoffIsPowerOfTwo | paramedic/writer.go:114-123 | Doubling from one second gives 2^n seconds after n failures. |
| LogEvents.FirstSuccess | paramedic/writer.go:115-119 | It finds the first successful answer; every earlier answer failed. |
| LogsWriter.CloudWatchLogsWriter.constructor | paramedic/writer.go:32-44 | A new writer has an empty buffer and an empty token, so its first request carries no token. |
| LogsWriter.CloudWatchLogsWriter.Start | paramedic/writer.go:46-69 | The stream-creation error is returned, and the flush loop starts only when creation succeeds. |
| LogsWriter.CloudWatchLogsWriter.Write | paramedic/writer.go:71-84 | Exactly one entry holding the whole text and its time is appended, and earlier entries are unchanged. The result is `(len(p), nil)`. |
| LogsWriter.CloudWatchLogsWriter.PutEvents | paramedic/writer.go:127-160 | The request is the batch's events with the current token. The token becomes `NextSequenceToken` on success and is unchanged on failure, which is returned. |
| LogsWriter.CloudWatchLogsWriter.FlushBuffer | paramedic/writer.go:106-125 | The batch is the whole buffer, which is left empty before any attempt, with no emptiness guard. Attempts are made until the first success. Every attempt carries the same batch and token. There is one doubling wait per failure, and the token advances only on delivery. |
| LogsWriter.CloudWatchLogsWriter.Retry | paramedic/writer.go:114-124 | The retry loop for a fixed batch makes the same attempts, waits and token update as stated for `FlushBuffer`. |
| LogsWriter.CloudWatchLogsWriter.Tick | paramedic/writer.go:52-65 | A timer tick flushes exactly when the loop is running; otherwise nothing is sent and nothing changes. The flush empties the buffer and attempts up to the first success, each attempt the old buffer with the old token. The token advances only on delivery. |
| LogsWriter.CloudWatchLogsWriter.Close | paramedic/writer.go:86-91 | `Close` returns only after the loop's final flush has been delivered. That flush takes the whole buffer, attempts up to the first success with the same batch and token, and the token advances only on delivery. Without a running loop it never returns, sends nothing and changes nothing. |
| S3Chunks.WriteChunks | paramedic/s3_writer.go:139-147 | A write adds one chunk exactly on overflow. The written bytes always go to the chunk that was last, which keeps its index and is closed if it overflowed or already was. |
| S3Chunks.WriteChunksShape | paramedic/s3_writer.go:139-146 | Earlier chunks are untouched. Indices stay consecutive, and only the last chunk may be open. An overflow closes the last chunk and appends one empty open chunk with the next index. Otherwise the chunk count is unchanged. |
| S3Chunks.WriteChunksBodies | paramedic/s3_writer.go:139-147 | The chunk bodies after a write are the bodies before it followed by the written bytes. |
| S3Chunks.OverflowLandsInClosedChunk | paramedic/s3_writer.go:140-147 | On overflow, the written bytes land in the chunk just closed, which then exceeds the size limit. The new chunk is empty. |
| S3Chunks.FirstFailure | paramedic/s3_writer.go:114-117 | It finds the first failed upload; every earlier upload succeeded. |
| S3Chunks.ChunkKey | paramedic/s3_writer.go:104 | The key is the prefix, then the index in decimal, then ".log". |
| S3Chunks.ChunkKeyInjective | paramedic/s3_writer.go:104 | Chunks with different indices get different keys, so no upload overwrites another chunk's object. |
| S3Chunks.UploadRequests | paramedic/s3_writer.go:101-112 | One `PutObject` request per chunk given. |
| S3Chunks.Attempted | paramedic/s3_writer.go:101-117 | Uploads are attempted up to and including the first failure. Every call but the last succeeded, the loop stops early only after a failure, and a non-empty buffer gets at least one call. |
| S3Chunks.PurgeCount | paramedic/s3_writer.go:119-121 | Only successfully uploaded chunks are counted. |
| S3Chunks.ClosedCountOfPrefix | paramedic/s3_writer.go:119-121 | With closed chunks forming a prefix, the count among the first n chunks is n, less one if the open last chunk is among them. |
| S3Chunks.PurgeRemovesUploadedClosed | paramedic/s3_writer.go:119-128 | The purged chunks are closed and were uploaded successfully. The count stops short of the first failure only at the open last chunk, which is never purged. |
| S3Chunks.PurgeKeepsShape | paramedic/s3_writer.go:124-128 | Moving closed chunks from the front keeps indices consecutive and loses no byte. |
| S3Chunks.CloseAll | paramedic/s3_writer.go:68-70 | Every chunk is closed, with its body and index kept. |
| S3Chunks.CloseAllKeepsShape | paramedic/s3_writer.go:66-70 | Closing every chunk keeps indices consecutive and bodies unchanged. |
| S3Chunks.CloseAllBodies | paramedic/s3_writer.go:68-70 | Closing chunks changes no body. |
| S3Chunks.CloseThenUploadPurgesAll | paramedic/s3_writer.go:66-74 | After `Close`, an upload in which every `PutObject` succeeds purges every chunk. |
| S3Chunks.WriteKeepsWellFormed | paramedic/s3_writer.go:132-151 | A write to an open writer keeps the invariant, with the bytes added to what was written. |
| S3Chunks.PurgeKeepsWellFormed | paramedic/s3_writer.go:124-128 | Purging closed chunks from the front keeps the invariant. |
| S3Chunks.CloseKeepsWellFormed | paramedic/s3_writer.go:66-70 | Closing the writer and every chunk keeps the invariant, now with every chunk closed. |
| S3Writer.Chunk.constructor | paramedic/s3_writer.go:22-28 | A new chunk is empty, open and has the given index. |
| S3Writer.S3Writer.constructor | paramedic/s3_writer.go:44-64 | A new writer holds exactly one open, empty chunk with index 1, and it is neither closed nor uploading. |
| S3Writer.S3Writer.Write | paramedic/s3_writer.go:132-151 | After close, the result is 0 bytes and "already closed", and nothing changes. Otherwise the chunks become `WriteChunks` of the old chunks, the bytes join what was written, the result is `len(p)`, and existing chunk objects stay in place. |
| S3Writer.S3Writer.AppendToLast | paramedic/s3_writer.go:138-147 | Updating the chunk objects in place gives exactly `WriteChunks` of their old values, and existing objects keep their positions. |
| S3Writer.S3Writer.UploadChunks | paramedic/s3_writer.go:99-122 | One `PutObject` per chunk, in buffer order, to `KeyPrefix + index + ".log"` with the chunk's body, up to the first failure. The count is the closed chunks uploaded before it. |
| S3Writer.S3Writer.UploadBuffer | paramedic/s3_writer.go:98-130 | After the uploads, exactly the first purge-count chunks move from the buffer to the purged list, and the invariant holds. |
| S3Writer.S3Writer.Purge | paramedic/s3_writer.go:124-129 | The first `count` chunks, all closed, leave the buffer and the invariant holds. |
| S3Writer.S3Writer.StartUploading | paramedic/s3_writer.go:76-96 | The upload goroutine is running. |
| S3Writer.S3Writer.Tick | paramedic/s3_writer.go:78-93 | A timer tick uploads and purges exactly when the goroutine is running and not finished: the requests are those of the chunks up to the first failure, and the uploaded closed chunks move from the buffer to the purged list. Otherwise nothing changes. |
| S3Writer.S3Writer.Close | paramedic/s3_writer.go:66-74 | The writer and every chunk are closed, and the record of written bytes is unchanged. With the goroutine running, it returns after one final upload of the closed chunks, which moves the uploaded ones from the buffer to the purged list. Without it, it never returns and nothing is uploaded or purged. |
| S3Writer.S3Writer.MarkClosed | paramedic/s3_writer.go:67-70 | The writer is closed and every chunk becomes `CloseAll` of its old value, keeping the invariant. |
| S3Writer.S3Writer.FinalUpload | paramedic/s3_writer.go:84-92 | The last iteration of the goroutine uploads once more, moves the uploaded closed chunks from the buffer to the purged list, then marks the goroutine finished. |
| S3Writer.S3Writer.CloseChunks | paramedic/s3_writer.go:68-70 | The loop sets every chunk's closed flag and nothing else. |

## Left out

- Goroutines, channels, mutexes and timers are not modelled: `time.After`, `time.Sleep`, and the unlocked reads of `closed` and `buffer`. Each timer tick, close request and poll is an explicit sequential step, so interleavings are not modelled.
- Calls that block forever: `Close` without a running loop, and a flush whose answers never succeed. `Close` reports `returned == false` instead of not returning; `FlushBuffer`, `Retry` and `Tick` report `delivered == false`.
- Sleeps are recorded as durations. Nothing waits, and `Duration`'s int64 overflow of the doubling backoff is not modelled (waits are unbounded integers).
- The log output of every component is not modelled, because it affects no result.
- AWS session and client creation (`NewS3Writer`'s and `NewCmdResultS3Uploader`'s session errors, `startWithOptions`'s session setup) is not modelled. The model starts from the constructed object.
- The AWS services are oracles, given as answers: `PutLogEvents`, `CreateLogStream`, `PutObject` and `GetObject`. Request bodies are modelled as values, not readers.
- `encoding/json`, the `flag` package and `time.ParseDuration` are oracles. `time.Now` is an input in Unix nanoseconds.
- The bit encoding of `syscall.WaitStatus` is not modelled. `Exited()` and `ExitStatus()` are the answers the model is given.
- Starting the command and delivering signals to it are not modelled (paramedic/command.go is not part of this model). Command start is its error, if any, and forwarding a signal means recording its number.
- paramedic/instanceid.go, paramedic/config.go, paramedic/aws.go and main.go are not part of this model.
- LogsWriter.CloudWatchLogsWriter.Write: requires every line of the written text, with its newline, to fit `bufio.Scanner`'s default 64 KiB buffer. The scanner's silent stop with `ErrTooLong` is not modelled.
- Integer widths are not modelled. Indices, sizes, statuses and timestamps are unbounded integers; Go's truncating division is written out for timestamps.
- The partial-line carry-over that writer_test.go:32-49 expects is not in writer.go and is not modelled; writer.go is modelled as written.
- S3Writer.S3Writer.UploadChunks: `PutObject` is given one answer per buffered chunk. The answers after the first failure are ignored, as the loop stops there.
