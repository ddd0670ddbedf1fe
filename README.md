# Log analyzer plugin: task bookkeeping and result rules

This project models the deterministic core of the `loganalyzer` bot plugin.
A chat user sends `/analyze <log>`. The plugin checks its configuration and registers a
`pending` task under an 8-character id. In the background it runs the analysis in one of two ways:

- **direct mode:** it runs `knot-cli` locally;
- **proxy mode:** it submits the log to a remote proxy service and polls it.

Once a slot is held the task becomes `running`, and it ends `completed` or `failed`. The
result is shown in the chat, cut at 3000 bytes. When it is cut, the full artifact
`analysis_<id>.txt` is uploaded to the group or to the user. `/analyzestatus` reports one
task by id, or lists the requester's own tasks.

The modules follow the plugin's structure:

- `GoStrings`: byte strings and the Go string functions the plugin uses (`Split`, `Join`,
  `Contains`, ASCII `ToLower`/`ToUpper`, `TrimSpace`, `%d`).
- `Tasks`: the task record, its lifecycle, and the `TaskRegistry` class. The class wraps the
  plugin's `tasks` map and updates it in place.
- `TextUtil`: `extractRequestID`, `getStatusIcon`, and the short-id step of `generateShortID`.
- `Execution`: covers the following.
  - The configuration checks, the knot-cli argument vector and the artifact path.
  - The stderr filter, with the output builder as a class.
  - The outcome of a local run, and the per-poll decision of a remote run.
- `Finalize`: `sendResult`, covering the truncation, the request id and the upload target.
- `Analyzer`: the command handlers `handleAnalyze`, `runAnalysis` and `handleStatus`, written
  over the registry.

Go strings are byte strings. Lengths, slices, `Contains` and `Split` are therefore modelled on
`seq<byte>`. The non-ASCII constants ("错误" and the status icons) are written as their UTF-8
bytes.

Where the code goes beyond what the plugin's description says, the model follows the code:

- Only the modes "direct" and "proxy" are checked by name. Any other mode string passes
  validation and runs knot-cli locally (`Execution.Validate`, `Execution.UsesProxy`).
- The task id is not checked for collisions. Registering an id already in use replaces the
  stored task (`Tasks.TaskRegistry.Create`).
- A run that passes its deadline is reported as a timeout, even if knot-cli also exited with
  an error (`Execution.DirectError`).

## Model

| member | source | states |
|---|---|---|
| GoStrings.Split | main.go:658 | the pieces contain no separator; there is at least one piece; there is exactly one iff the separator does not occur |
| GoStrings.JoinSplit | main.go:658 | joining the pieces with the separator gives the input back |
| GoStrings.SplitJoin | main.go:248 | splitting the joined arguments at the separator gives them back when none contains it |
| GoStrings.LastPieceIsTail | main.go:662-664 | the last piece of a split is a separator-free suffix of the input, preceded by a separator or else the whole input |
| GoStrings.TrimSpace | main.go:664 | the result neither starts nor ends with white space, and is the input with only white space removed around it |
| GoStrings.DigitsRoundTrip | main.go:329 | the `%d` digits of a number read back as that number |
| GoStrings.Decimal | main.go:329 | `%d` of an integer: a minus sign for negatives, then the digits; what the digits mean is stated by `GoStrings.DigitsRoundTrip` |
| Tasks.NewTask | main.go:251-257 | a new record is pending, has no error, and carries the id, owner, group and start time; it is well formed |
| Tasks.ChooseDuration | main.go:516-520 | the reported duration is used iff it is positive; otherwise the elapsed time since start is used |
| Tasks.NamesDistinct | main.go:75 | the four status strings are pairwise different |
| Tasks.StepsAllEvolves | main.go:285-287 | a history of single lifecycle steps never moves a status backwards |
| Tasks.EvolvesTransitive | main.go:279-294 | monotonic histories compose: status never moves backwards, and a terminal task never changes, over any sequence of operations |
| Tasks.TaskRegistry.Create | main.go:251-261 | stores a pending task under its id and leaves the other tasks unchanged; the registry stays well formed; for a fresh id no existing task changes |
| Tasks.TaskRegistry.MarkRunning | main.go:285-287 | pending becomes running and nothing else changes |
| Tasks.TaskRegistry.CompleteTask | main.go:470-496 | with an error: failed, recording the error text; without one: completed with an empty error; both record the end time and the elapsed duration; only this task changes, by one lifecycle step |
| Tasks.TaskRegistry.CompleteWithResult | main.go:514-525 | always completed with no error, with the duration rule above; only this task changes |
| Tasks.TaskRegistry.Get | main.go:581-586 | not found exactly when the id is unknown; otherwise the stored record |
| Tasks.TaskRegistry.ListByUser | main.go:610-616 | exactly the stored tasks whose owner is the requester, each once, and each as stored |
| TextUtil.CarriesIffColon | main.go:660-663 | a line is used iff it mentions `requestid` in any case and contains a colon |
| TextUtil.Carries | main.go:660-663 | whether a line gives the value; characterised by `TextUtil.CarriesIffColon` |
| TextUtil.ValueOf | main.go:662-664 | the value taken from a line; characterised by `TextUtil.ValueIsAfterLastColon` |
| TextUtil.ScanLines | main.go:659-668 | the loop over the lines; its result is stated by `TextUtil.ScanNoMatch` and `TextUtil.ScanFirstMatch` |
| TextUtil.ExtractRequestId | main.go:656-669 | the extracted id contains no colon and has no white space at either end; which value it is, is stated by `TextUtil.ExtractRequestIdNone` and `TextUtil.ExtractRequestIdFirst` |
| TextUtil.ValueIsAfterLastColon | main.go:662-664 | the value of a used line is the trimmed text after its last colon |
| TextUtil.ScanNoMatch | main.go:668 | with no usable line the result is empty |
| TextUtil.ScanFirstMatch | main.go:659-665 | the value comes from the first usable line, and earlier lines are passed over |
| TextUtil.ExtractRequestIdNone | main.go:656-669 | extractRequestID returns empty when no line of the result is usable |
| TextUtil.ExtractRequestIdFirst | main.go:656-665 | otherwise it returns the value of the first usable line |
| TextUtil.ExtractFallsThrough | main.go:659-665 | a first line that is not usable is passed over and the next usable line gives the value |
| TextUtil.ExtractRequestIdShape | main.go:664 | the extracted id contains no colon and has no surrounding white space |
| TextUtil.ExtractSingleLine | main.go:656-669 | "RequestID: abc-123" yields "abc-123" |
| TextUtil.ExtractSkipsLineWithoutColon | main.go:660-663 | a line that mentions the key without a colon is skipped, and the next usable line gives the value |
| TextUtil.StatusIcon | main.go:640-653 | total; returns one of five icons; returns the question mark iff the status is none of the four names |
| TextUtil.IconsTellStatusesApart | main.go:640-653 | the four lifecycle states get four different icons, none of them the question mark |
| TextUtil.ShortId | main.go:636 | eight bytes; equal to the UUID's first eight bytes up to ASCII case; no lower-case letters |
| Execution.Validate | main.go:226-248 | no arguments are rejected; direct mode without a workspace is rejected; proxy mode without a proxy URL is rejected (each iff); otherwise the log text is the arguments joined by single spaces |
| Execution.LogTextSplitsBack | main.go:248 | the accepted log text splits back into the arguments when none contains a space |
| Execution.UsesProxy | main.go:289-293 | the remote strategy runs iff the mode is exactly "proxy"; every other mode runs locally |
| Execution.BuildCommandArgs | main.go:378-388 | starts with `chat`; `-w W` iff the workspace is set; then `--system-prompt S` iff the prompt is set; ends `-p <log> --codebase`; length 4, 6 or 8; parses back to exactly that invocation |
| Execution.ArtifactName | main.go:374 | `analysis_<id>.txt`; its uses are stated by `Execution.ArtifactPathInjective`, `Execution.ArtifactPathEndsWithName` and `Finalize.UploadFor` |
| Execution.JoinPath | main.go:375 | the directory and the name with one separator between them |
| Execution.ArtifactPath | main.go:374-375 | the artifact path; stated by `Execution.ArtifactPathInjective` and `Execution.ArtifactPathEndsWithName` |
| Execution.ArtifactPathInjective | main.go:374-375 | different task ids give different artifact paths |
| Execution.ArtifactPathEndsWithName | main.go:351 | the artifact path ends with `analysis_<id>.txt` |
| Execution.KeepStderrLine | main.go:445 | the stderr filter; characterised by `Execution.UnbracketedLineKept` and `Execution.BracketedLineKeptIffError` |
| Execution.KeptLines | main.go:440-450 | the filter never adds lines |
| Execution.KeptLinesMembers | main.go:445 | a line is kept iff it occurs in the input and the filter accepts it; no line is kept more often than it occurs |
| Execution.UnbracketedLineKept | main.go:445 | a stderr line not starting with `[` is always kept |
| Execution.BracketedLineKeptIffError | main.go:445 | a line starting with `[` is kept iff it contains "错误" or "Error" |
| Execution.RenderedSplitsBack | main.go:434 | text written line by line, each followed by a newline, splits back into the lines plus one empty piece |
| Execution.OutputSink.DrainStdout | main.go:430-437 | every stdout line is appended, followed by a newline |
| Execution.RenderedKeptStep | main.go:445-447 | each stderr line adds itself and a newline to the written text iff the filter keeps it, and nothing otherwise |
| Execution.OutputSink.DrainStderr | main.go:440-450 | exactly the filtered stderr lines are appended, in order, each followed by a newline |
| Execution.TimeoutMessage | main.go:329 | the timeout message starts with "analysis timed out after " (also used at line 457) |
| Execution.DirectError | main.go:398-466 | a local run fails unless the process exited cleanly before the deadline; the deadline takes precedence over a process error; each failure gets its own message: "failed to create output file: ", "failed to create stdout pipe: ", "failed to create stderr pipe: ", "failed to start knot-cli: " or "knot-cli error: " followed by the Go error, or the timeout message |
| Execution.DirectTimeoutRecognisable | main.go:456-457 | a local run's error reads as a timeout iff the run passed its deadline |
| Execution.DecidePoll | main.go:349-366 | remote "completed" finishes the run with the reported content and duration; "failed" fails it with "proxy error: " and the reported error; anything else, including transport and decode errors, polls again |
| Execution.FirstDecision | main.go:326-368 | the decision the loop settles on; it is "keep polling" iff no response is decisive |
| Execution.FirstDecisionAt | main.go:326-368 | when response i is the first decisive one, the loop settles on its decision |
| Execution.PollUntilDecided | main.go:326-368 | stops at the first decisive response; keeps polling iff no response seen before the deadline is decisive |
| Execution.ProxyError | main.go:314-364 | a remote run succeeds iff the first decisive poll reports completion; a failed submission gives "failed to connect to proxy: " and the Go error; a first decisive "failed" gives that decision's message; with no decisive poll it is a timeout |
| Execution.ProxyFailureMessage | main.go:360-363 | when the first decisive poll reports "failed", the run fails with "proxy error: " and the error the service reported |
| Execution.ProxyCompletionResult | main.go:349-358 | when the first decisive poll reports "completed", the run succeeds with that response's content and duration |
| Finalize.Truncate | main.go:536-542 | truncated iff longer than 3000 bytes (exactly 3000 is kept whole); otherwise the result itself; when truncated, the first 3000 bytes and the notice; always starts with the first min(len, 3000) bytes |
| Finalize.UploadFor | main.go:565-571 | an upload happens iff the result was truncated and there is a path; it goes to the group iff the group id is positive, otherwise to the user; the name is always `analysis_<id>.txt` |
| Finalize.SendResult | main.go:531-572 | the success report carries the task's duration, the extracted request id, the truncated display and the upload decision |
| Finalize.SendResultUploadsIffTooLong | main.go:539-571 | for a task's artifact path, a file is uploaded iff the result exceeds 3000 bytes, under the path's own file name |
| Analyzer.HandleAnalyze | main.go:225-261 | a rejected request leaves the registry unchanged; an accepted one stores a pending task under the short id, before any background work |
| Analyzer.RunError | main.go:289-293 | the error of the strategy the mode selects: `Execution.ProxyError` for "proxy", `Execution.DirectError` otherwise |
| Analyzer.RunAnalysis | main.go:279-294 | the task goes pending to running to terminal, monotonically, keeping its id, owner, group and start time, and no other task changes; it fails iff the selected strategy produced an error, recording that error; it records the end time and the duration (the reported one, when positive, for a remote completion, otherwise the time since the start); the reply follows the failure, read-failure or success path |
| Analyzer.FinishViaProxy | main.go:297-368 | the first decisive poll completes the task, with the reported duration when positive and the elapsed time otherwise, and sends its content; otherwise the task fails with the connection, proxy or timeout message of `Execution.ProxyError` and the elapsed time |
| Analyzer.FinishDirect | main.go:372-511 | fails with the local run's message from `Execution.DirectError` if there is one; otherwise completes; either way the elapsed time since the start is recorded; a completed run then reports a read failure or sends the artifact's content |
| Analyzer.ReportOf | main.go:588-606 | reports the status name, the status's icon (never the question mark), the error, and either the recorded duration (finished tasks) or the time since start |
| Analyzer.LineFor | main.go:624-627 | a listing line carries the task's id, its status name and the status's icon (never the question mark) |
| Analyzer.HandleStatus | main.go:575-630 | not found iff the id is unknown, otherwise that task's report; without an id, "no tasks" iff the user owns none, and otherwise a listing whose lines carry exactly the owned ids, no id twice, each line with the stored task's icon, id and status |

## Left out

- The concurrency limiter and the goroutines are not modelled. `RunAnalysis` starts when a slot is held; slot acquisition and release are not modelled.
- The two output readers are not run concurrently. They write to the same builder and file without synchronisation, so their interleaving is unspecified. `OutputSink` runs them one after the other. The process wait does not wait for the readers, and the file is closed right after it, so writes still in flight can be lost. The artifact text that a local run reads back is therefore an input (`artifact`), not the sink's text.
- Process supervision is reduced to its outcome (`DirectRun`):
  - creating the file, the pipes and the process;
  - waiting;
  - the deadline context.
- HTTP is reduced to its outcome (`ProxyRun`): the submission, and the sequence of poll responses the loop acts on. The deadline timer starts only after the submission, and a status request begun before the deadline is waited for (the HTTP client's own limit is the timeout plus 30 seconds). A "completed" that arrives after the deadline can therefore still win. Which responses are acted on is decided by the 2-second interval and these timers, which are not modelled: `responses` is an input.
- File I/O is not modelled. This includes the proxy path's write of the content to the shared directory; the plugin only logs a failure of that write.
- JSON encoding of the proxy request is not modelled. It cannot fail for two string fields, so its error branch is left out.
- Time is a parameter (`now`) and durations are abstract values. `Round`, `Duration.String` and `%.2fs` formatting are not modelled.
- Uuid generation is not modelled. `ShortId` takes the UUID text as input.
- Configuration loading from the environment, the help command, logging and the reply and emoji templates are not modelled. The replies are modelled as datatypes holding the values they show.
- ToLower, ToUpper and TrimSpace are ASCII-only: Go's Unicode case mapping and Unicode white space are not modelled.
- JoinPath is not the full `filepath.Join`: it does not clean `..`, `.` or repeated separators in the configured directory.
- Split lines are given as a sequence. The line scanner's 64 KiB token limit and its handling of a trailing carriage return are not modelled.
- CompleteTask: the plugin writes the end time, duration, status and error on the shared task record before it takes the registry lock, so a concurrent status query can see a half-updated record (for example "failed" with an empty error). The model makes the whole update at once, so `Valid` describes the records between updates, not every state a reader can observe.
- CompleteWithResult: the same unlocked writes as `CompleteTask`.
- Create: after an id collision the older task's goroutine keeps updating its own record and writes it back under the shared id, replacing the newer task. The model's completion methods update whatever record is stored under the id, so this overwrite is not captured.
