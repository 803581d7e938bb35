# Narrative job-status helpers and UI builders, in Dafny

This project models three pieces of the KBase Narrative front end and proves properties of each.

- **The `common/jobs` contract.** This is how a job-state record from the execution engine is recognised, classified and summarised:
  - terminal statuses;
  - valid job-state and job-info objects;
  - the short label, the action and the "nice state" span;
  - the status line and the status history;
  - the app-cell status cell;
  - the combined summary of a batch of jobs;
  - indexing a job array by id and by status.

  The module that implements it is not part of this model. The model follows the behaviour that its test suite and test data pin down.
- **The job log viewer.** This widget follows one job. It asks for the job's status, reacts to status updates, fetches logs (the whole log once the job has finished, the latest lines while it runs), and can be stopped and detached. Its implementing module is not part of this model either; the model follows the widget's test suite. The state machine is written twice:
  - as functions on a `ViewerState` value (one transition per message);
  - as a `Viewer` class whose fields those methods update in place, each method proved to move its fields exactly as the matching function says.
- **The helpers of `common/ui`:**
  - `htmlEncode`, which replaces only the first occurrence of each special character;
  - `camelToHyphen`;
  - the `data-element` selectors of `getElement`, `getElements` and `findNode`;
  - `buildIcon`, `buildPanel` and `buildCollapsiblePanel`;
  - `buildTabs`, including the reversal of right-aligned tabs, which works in place on an array;
  - `buildPresentableJson` and `buildErrorStacktrace`;
  - `getUserSetting`;
  - the button order of `renderDialog`'s footer.

  DOM output is modelled as the values that end up in the markup: class lists, ids, selectors and rows.

JavaScript values are modelled by the `Js` datatype in `js_value.dfy`:
- undefined, null, booleans, integral numbers, strings, arrays, functions;
- objects as ordered property lists, where the first property with a key wins.

Element ids come from `html.genId`, modelled as the counter class `UiBuilders.IdSource`.

Files:
- `wrappers.dfy`: `Option` and the pass/fail `Outcome`.
- `text.dfy`: decimal rendering, join and split, ASCII case and first-occurrence replace.
- `js_value.dfy`: the JavaScript value model.
- `jobs.dfy`: the job classifier.
- `jobs_fixtures.dfy`: the records of the test data, checked against the classifier.
- `job_log_viewer.dfy`: the log viewer.
- `ui.dfy`: the text and selector helpers, the JSON presenter and the dialog footer.
- `ui_builders.dfy`: ids, icons, panels and tabs.

## Model

| member | source | states |
|---|---|---|
| Jobs.StatusFromName | test/unit/spec/common/jobsSpec.js:45-61 | a recognised status name reads back as exactly that name |
| Jobs.ParseStatus | test/unit/spec/common/jobsSpec.js:45-61 | only a string holding a status name parses, and it parses to that status |
| Jobs.ParseStatusName | test/unit/spec/common/jobsSpec.js:45-61 | every status name parses back to its status |
| Jobs.IsTerminalStatus | test/unit/spec/common/jobsSpec.js:45-61 | true exactly for completed, terminated, error and does_not_exist; false for in-progress states and for invalid input |
| Jobs.IsValidJobStateObject | test/unit/spec/common/jobsSpec.js:63-75 | a valid job state is an object holding at least the three distinct required properties (job_id, status, created); the accepted and rejected records are pinned by the JobsFixtures lemmas |
| Jobs.IsValidJobInfoObject | test/unit/spec/common/jobsSpec.js:77-89 | a valid job info is an object holding at least its two required properties (job_id, job_params); JobsFixtures.JobInfoParams states when a record with any key order and extra keys is valid, ValidInfoAccepted accepts both accepted fixture records, and the rejection lemmas reject every rejected one |
| Jobs.ParseJobState | test/unit/spec/common/jobsSpec.js:63-75 | a record parses iff it is a valid job-state object; the parsed id is non-empty and the parsed status is the one the record names |
| Jobs.ParseErrorToJs | test/data/jobsData.js:201-205 | an error record written out as an object parses back to the same code, name and message |
| Jobs.JobStateToJsField | test/data/jobsData.js:198-212 | each field of a written-out job state is found by its own key |
| Jobs.JobStateToJsValid | test/unit/spec/common/jobsSpec.js:63-75 | a written-out job state with a non-empty id is valid, and its id, status and creation time read back as written |
| Jobs.JobStateRoundTrip | test/unit/spec/common/jobsSpec.js:63-75 | every job state with a non-empty id writes out to a valid job-state object that parses back to the same state |
| Jobs.JobLabel | test/unit/spec/common/jobsSpec.js:149-197 | the label is queued, running, success, cancelled or not found exactly for the matching statuses; an error job is labelled failed, with its error name when one is asked for |
| Jobs.JobAction | test/unit/spec/common/jobsSpec.js:168-179 | no action for invalid input; cancel exactly for jobs in progress, go to results exactly for completed ones, retry exactly for the other terminal statuses |
| Jobs.NiceState | test/unit/spec/common/jobsSpec.js:199-224 | the text is "invalid" exactly for a non-status; the plain summary class exactly for non-terminal input, a class suffixed by the status for terminal ones; in-progress statuses show their own name; completed, error, terminated and does_not_exist show "success", "error", "cancellation" and "does not exist" |
| Jobs.ErrorString | test/data/jobsData.js:194 | the error string is the error's name, then ": Error code: ", then the code written in decimal |
| Jobs.ErrorStringCode | test/data/jobsData.js:194 | the text after "name: Error code: " reads back as the error's code |
| Jobs.ErrorStringDeterminesCode | test/data/jobsData.js:194-226 | two errors with the same name and the same error string have the same code |
| Jobs.CreateJobStatusFromFsm | test/unit/spec/common/jobsSpec.js:226-265 | error and internal-error give text "error" with the error class; canceling and canceled give "canceled" with the terminated class; processing gives "running" or "queued" with the matching class in the running or queued stage; success gives "success" with the completed class; every other combination gives no cell |
| Jobs.CurrentStatusLine | test/data/jobsData.js:10-20 | the line is the not-found line exactly for a job that does not exist, and the "Determining job state..." line exactly when the timestamp of the current phase is missing (running without a start time, finished without an end time) |
| Jobs.StatusHistory | test/unit/spec/common/jobsSpec.js:117-126 | one to three lines, ending with the current status line; a job that does not exist has the not-found line alone |
| Jobs.CreateJobStatusLines | test/unit/spec/common/jobsSpec.js:101-147 | a record the validator rejects gives the single "determining job state" line (one exception is listed under Left out); without history there is exactly one line; with history one to three |
| Jobs.StatusLinesOfValidRecord | test/unit/spec/common/jobsSpec.js:101-147 | a valid record's lines are its status history with history on and its current status line alone with history off; a job that does not exist gives the not-found line either way |
| Jobs.CurrentLineEndsHistory | test/unit/spec/common/jobsSpec.js:110-126 | the single status line is the last line of the history |
| Jobs.HistoryEndsWithCurrentLine | test/data/jobsData.js:42-45 | a job state's history ends with its current status line |
| Jobs.HistoryByPhase | test/data/jobsData.js:13-20 | the history is the not-found line alone for a job that does not exist; the queue line for queued jobs; the run line after the queue duration for running jobs; queue and run durations, or the queue duration alone, before the finish line for finished jobs |
| Jobs.CountBucket | test/unit/spec/common/jobsSpec.js:270-346 | a bucket never counts more jobs than the batch has |
| Jobs.AnyInProgress | test/unit/spec/common/jobsSpec.js:270-346 | true exactly when some job's status is not terminal |
| Jobs.NonEmptyBuckets | test/unit/spec/common/jobsSpec.js:270-346 | lists exactly the buckets of the given order that hold at least one job |
| Jobs.Phrases | test/unit/spec/common/jobsSpec.js:270-346 | one phrase per listed bucket, the k-th reading "N label" for the k-th bucket's count N, with "successes" for more than one success |
| Jobs.CreateCombinedJobState | test/unit/spec/common/jobsSpec.js:348-357 | no summary exactly for a missing or empty batch; otherwise a span whose title equals its text |
| Jobs.CombinedJobStateByCounts | test/unit/spec/common/jobsSpec.js:267-346 | the summary of every non-empty batch is the one written out from its counts: the in-progress prefix and the positive counts of queued, running, success, failed, cancelled and not found, in that order, joined by ", "; a finished batch lists only the outcome buckets, and names the outcome ("success", "cancellation" or "error") when only one bucket holds jobs |
| Jobs.NonEmptyBucketsAppend | test/unit/spec/common/jobsSpec.js:270-346 | the buckets listed for a concatenated order are those of each part in turn, so the order of the buckets is kept |
| Jobs.NonEmptyBucketsOne | test/unit/spec/common/jobsSpec.js:270-346 | a single bucket is listed exactly when it holds a job |
| Jobs.PhrasesAppend | test/unit/spec/common/jobsSpec.js:270-346 | the phrases of a concatenation of buckets are those of each part in turn |
| Jobs.CountBucketAppend | test/unit/spec/common/jobsSpec.js:270-346 | bucket counts add up over concatenated batches |
| Jobs.CountsPartitionBatch | test/unit/spec/common/jobsSpec.js:270-346 | the six bucket counts add up to the size of the batch |
| Jobs.FinishedBatchHasNoActiveBuckets | test/unit/spec/common/jobsSpec.js:270-346 | a batch with no job in progress has nothing queued or running |
| Jobs.CountBucketPermutation | test/unit/spec/common/jobsSpec.js:270-346 | bucket counts do not depend on the order of the jobs |
| Jobs.NonEmptyBucketsPermutation | test/unit/spec/common/jobsSpec.js:270-346 | the buckets shown do not depend on the order of the jobs |
| Jobs.PhrasesPermutation | test/unit/spec/common/jobsSpec.js:270-346 | the phrases do not depend on the order of the jobs |
| Jobs.AnyInProgressPermutation | test/unit/spec/common/jobsSpec.js:270-346 | whether the batch is in progress does not depend on the order of the jobs |
| Jobs.FinishedTailPermutation | test/unit/spec/common/jobsSpec.js:270-346 | the finished summary does not depend on the order of the jobs |
| Jobs.CombinedJobStatePermutation | test/unit/spec/common/jobsSpec.js:267-358 | the combined summary of a batch does not depend on the order of its jobs |
| Jobs.CombinedJobStateFraming | test/unit/spec/common/jobsSpec.js:348-357 | a non-empty batch gets a summary span whose text starts with the in-progress prefix exactly when some job's status is not terminal |
| Jobs.UniformFinishedBatch | test/unit/spec/common/jobsSpec.js:270-346 | a finished batch whose jobs all share one bucket is summarised by that bucket's outcome and a count equal to the batch size |
| Jobs.UniformFinishedTail | test/unit/spec/common/jobsSpec.js:270-346 | when every job falls in one finished bucket, the finished summary names that bucket's outcome and counts the whole batch |
| Jobs.AllTerminalNotInProgress | test/unit/spec/common/jobsSpec.js:270-346 | a batch of terminal jobs is not in progress |
| Jobs.ParseStatusTerminalBucket | test/unit/spec/common/jobsSpec.js:45-61 | a terminal job falls into one of the finished buckets |
| Jobs.UniformCount | test/unit/spec/common/jobsSpec.js:270-346 | when all jobs share a bucket, that bucket counts them all and every other bucket counts none |
| Jobs.NonEmptyBucketsNone | test/unit/spec/common/jobsSpec.js:270-346 | no bucket is shown when all listed buckets are empty |
| Jobs.NonEmptyBucketsSingle | test/unit/spec/common/jobsSpec.js:270-346 | exactly one bucket is shown when only it holds jobs |
| Jobs.JobArrayToIndexedObject | test/unit/spec/common/jobsSpec.js:362-386 | every job indexed by id is stored under its own id |
| Jobs.JobIndexCovers | test/unit/spec/common/jobsSpec.js:362-380 | every job's id is indexed by id and appears under its status |
| Jobs.JobIndexById | test/unit/spec/common/jobsSpec.js:362-380 | everything indexed by id is one of the input jobs |
| Jobs.JobIndexByStatus | test/unit/spec/common/jobsSpec.js:362-380 | every id under a status belongs to an input job with that status |
| Jobs.JobIndexStatuses | test/unit/spec/common/jobsSpec.js:362-380 | a status is a key of the by-status index exactly when some input job has that status |
| JobsFixtures.NonObjectsRejected | test/data/jobsData.js:284-311 | numbers, strings, arrays, null and undefined are neither job states nor job infos |
| JobsFixtures.ExtraKeysAllowed | test/data/jobsData.js:263-268 | extra keys after a valid record keep it valid, with the same id, status and creation time |
| JobsFixtures.MissingKeyRejected | test/data/jobsData.js:288-303 | a record missing a required key is not a job state |
| JobsFixtures.MisspeltCreatedRejected | test/data/jobsData.js:296-299 | the record `{job_id: 'baz', create: 12345}`, with "create" instead of "created", is not a job state |
| JobsFixtures.UnknownStatusRejected | test/data/jobsData.js:304-308 | a record whose status is not a known status is not a job state |
| JobsFixtures.JobInfoParams | test/data/jobsData.js:313-338 | any record whose job_id is a string or a number, whatever its key order and extra keys, is a valid job info exactly when its job_params is a non-empty array of non-empty objects |
| JobsFixtures.ValidInfoAccepted | test/data/jobsData.js:313-324 | both accepted records, with job_params before job_id and with or without the app id and name, are valid job infos |
| JobsFixtures.MisnamedParamsRejected | test/data/jobsData.js:328-330 | the empty object, and a record naming its parameters `params`, are not job infos |
| JobsFixtures.EmptyParamsRejected | test/data/jobsData.js:333-336 | a job info whose job_params is an empty list, or a list holding an empty object, is rejected |
| JobsFixtures.NonObjectParamsRejected | test/data/jobsData.js:331-335 | a job info whose job_params is an object rather than a list, or a list holding a string or a list, is rejected |
| JobsFixtures.MissingJobIdRejected | test/data/jobsData.js:337 | a job info without a job_id is rejected, whatever its parameters |
| JobsFixtures.ThreeSuccesses | test/unit/spec/common/jobsSpec.js:270-346 | three completed jobs are summarised as "batch job finished with success: 3 successes" |
| JobsFixtures.CompletedJob | test/data/jobsData.js:150-157 | a completed job is terminal and falls into the success bucket |
| JobsFixtures.SuccessPhrase | test/unit/spec/common/jobsSpec.js:270-346 | the success outcome for three jobs reads "batch job finished with success: 3 successes" |
| JobsFixtures.ThreeSuccessesPhrase | test/unit/spec/common/jobsSpec.js:270-346 | three successes are phrased "3 successes" |
| JobsFixtures.AllJobsSummary | test/unit/spec/common/jobsSpec.js:285-289 | a batch of every status (three queue-phase jobs, one running, two terminated, two errors, one completed, one not found) is summarised as "batch job in progress: 3 queued, 1 running, 1 success, 2 failed, 2 cancelled, 1 not found" |
| JobsFixtures.MixedFinishSummary | test/unit/spec/common/jobsSpec.js:305-315 | terminated, error, completed, error, error is summarised as "batch job finished: 1 success, 3 failed, 1 cancelled" |
| JobsFixtures.NotFoundSummary | test/unit/spec/common/jobsSpec.js:331-335 | two jobs that do not exist are summarised as "batch job finished with error: 2 not found" |
| JobsFixtures.QueueErrorString | test/data/jobsData.js:194 | the "Queue error" record with code 666 gives "Queue error: Error code: 666" |
| JobsFixtures.ServerErrorString | test/data/jobsData.js:226 | the "Server error" record with code -32000 gives "Server error: Error code: -32000" |
| JobLogViewer.ModeOf | test/data/jobsData.js:52-53 | a job status maps to a mode other than new, terminal (completed, error, terminated or does-not-exist, the IsTerminalMode predicate) exactly when the status is terminal |
| JobLogViewer.RenderLogLines | test/unit/spec/util/jobLogViewerSpec.js:166-188 | one rendered line per log line, with its text, and the error class exactly for error lines |
| JobLogViewer.FullLogRequests | test/unit/spec/util/jobLogViewerSpec.js:675-701 | zero exactly when no whole-log request was sent, and the number sent exactly when every request is one; how each request sent changes it is stated by FullLogRequestsAppend |
| JobLogViewer.LatestLogRequests | test/unit/spec/util/jobLogViewerSpec.js:583-633 | zero exactly when no latest-log request was sent, and the number sent exactly when every request is one; how each request sent changes it is stated by LatestLogRequestsAppend |
| JobLogViewer.RequestCounts | test/unit/spec/util/jobLogViewerSpec.js:675-701 | the requests a finished job sends, a status request and a whole-log request, hold one whole-log request and no latest-log request |
| JobLogViewer.LogPanelOf | test/unit/spec/util/jobLogViewerSpec.js:166-188 | a log response renders no log lines exactly when it is empty; otherwise one line per log line, with its text |
| JobLogViewer.LatestLogRequestsAppend | test/unit/spec/util/jobLogViewerSpec.js:583-633 | sending a request adds one to the latest-log count exactly when it asks for the latest log |
| JobLogViewer.FullLogRequestsAppend | test/unit/spec/util/jobLogViewerSpec.js:675-701 | sending a request adds one to the whole-log count exactly when it asks for the whole log |
| JobLogViewer.Initial | test/unit/spec/util/jobLogViewerSpec.js:282-301 | a new viewer is detached, in mode new, has sent nothing and keeps the invariant |
| JobLogViewer.StartCheck | test/unit/spec/util/jobLogViewerSpec.js:228-241 | start succeeds exactly with a node and a job id; otherwise it fails with the node error first, then the job-id error |
| JobLogViewer.OnStatus | test/unit/spec/util/jobLogViewerSpec.js:403-437 | a detached or terminal viewer, or an invalid record, changes nothing; otherwise the mode becomes the mode of the record's status and the status lines are redrawn from the record |
| JobLogViewer.ApplyStatus | test/unit/spec/util/jobLogViewerSpec.js:403-437 | applying a status sets the mode, the status lines and the error line, and keeps the attachment, job id and history setting |
| JobLogViewer.ApplyStatusEffects | test/unit/spec/util/jobLogViewerSpec.js:403-437 | queued shows the queued message and stops looping; running loops, waits and asks for the latest log unless a request is out; completed, error and terminated stop listening and looping and ask for the whole log from line 0; does-not-exist blanks the panel and clears every flag; none of them sends any other modelled request |
| JobLogViewer.OnStatusEffects | test/unit/spec/util/jobLogViewerSpec.js:403-437 | a valid status to an attached, non-terminal viewer has the per-mode effect of its status: the queued message, the latest-log request, the whole-log request, or the blank panel |
| JobLogViewer.OnLogs | test/unit/spec/util/jobLogViewerSpec.js:583-633 | an attached viewer stops waiting and shows exactly the lines received, keeping its mode, flags, status lines and requests; a detached one changes nothing |
| JobLogViewer.OnLogDeleted | test/unit/spec/util/jobLogViewerSpec.js:636-673 | a deleted log changes neither the mode nor the requests sent |
| JobLogViewer.OnDoesNotExist | test/unit/spec/util/jobLogViewerSpec.js:438-461 | an attached, non-terminal viewer moves to does-not-exist, shows the not-found line and a blank log panel, stops listening, waiting and looping, and sends nothing; otherwise nothing changes |
| JobLogViewer.OnTick | test/unit/spec/util/jobLogViewerSpec.js:583-633 | a polling tick keeps the mode; an attached, running, looping viewer with no request out sends one latest-log request and starts waiting, and any other viewer is left unchanged |
| JobLogViewer.Begun | test/unit/spec/util/jobLogViewerSpec.js:243-268 | a started viewer is attached, in mode new, has sent nothing yet and keeps the invariant |
| JobLogViewer.Started | test/unit/spec/util/jobLogViewerSpec.js:254-335 | after start the viewer is attached to the job; a valid record sets the mode of its status and its status lines; without one the mode is new and one status request is sent |
| JobLogViewer.OnStatusInv | test/unit/spec/util/jobLogViewerSpec.js:403-437 | a status update keeps the viewer invariant |
| JobLogViewer.ApplyStatusInv | test/unit/spec/util/jobLogViewerSpec.js:403-437 | applying a status keeps the viewer invariant |
| JobLogViewer.OnLogsInv | test/unit/spec/util/jobLogViewerSpec.js:583-633 | receiving logs keeps the viewer invariant |
| JobLogViewer.OnLogDeletedInv | test/unit/spec/util/jobLogViewerSpec.js:636-673 | a deleted log keeps the viewer invariant |
| JobLogViewer.OnDoesNotExistInv | test/unit/spec/util/jobLogViewerSpec.js:438-461 | a does-not-exist message keeps the viewer invariant |
| JobLogViewer.OnTickInv | test/unit/spec/util/jobLogViewerSpec.js:583-633 | a polling tick keeps the viewer invariant |
| JobLogViewer.StartedInv | test/unit/spec/util/jobLogViewerSpec.js:243-268 | starting leaves the viewer in a state that keeps the invariant |
| JobLogViewer.TerminalIsFinal | test/unit/spec/util/jobLogViewerSpec.js:675-735 | once terminal, status updates, ticks and does-not-exist messages change nothing, and log messages change neither the mode nor the requests |
| JobLogViewer.InvalidStatusIgnored | test/unit/spec/util/jobLogViewerSpec.js:462-521 | an invalid job state leaves the viewer unchanged |
| JobLogViewer.OnStatusIdempotent | test/unit/spec/util/jobLogViewerSpec.js:403-437 | receiving the same status twice is the same as receiving it once |
| JobLogViewer.StatusSetsMode | test/unit/spec/util/jobLogViewerSpec.js:403-437 | a valid status moves an attached, non-terminal viewer to the mode of that status: queued for the queue-phase statuses, otherwise the mode of the same name |
| JobLogViewer.FinishedJobRequestsWholeLog | test/unit/spec/util/jobLogViewerSpec.js:675-701 | starting on a finished job asks for the whole log from line 0 exactly once, never for the latest lines, and waits without listening or looping |
| JobLogViewer.TerminalStatusRequestsWholeLog | test/unit/spec/util/jobLogViewerSpec.js:675-701 | a finished status arriving as a message after start stops listening and looping and sends exactly the status request and one whole-log request from line 0, never a latest-log request |
| JobLogViewer.FinishedLogShown | test/unit/spec/util/jobLogViewerSpec.js:675-701 | the log response of a finished job shows all its lines, leaves nothing to wait for, and no tick sends anything more |
| JobLogViewer.RunningStatusRequestsLatestLog | test/unit/spec/util/jobLogViewerSpec.js:583-633 | a running status arriving after start makes the viewer listen, loop and wait, having sent the status request and then one latest-log request |
| JobLogViewer.StartWithoutRecord | test/unit/spec/util/jobLogViewerSpec.js:254-268 | starting without a valid record sends one status request, stays in mode new, listens, and shows the unknown-state line with no error |
| JobLogViewer.RunningLogCycle | test/unit/spec/util/jobLogViewerSpec.js:583-633 | while running, a log response shows exactly its lines; the next tick asks for the latest log again and waits, and a second tick adds nothing |
| JobLogViewer.LogDeletedFlags | test/unit/spec/util/jobLogViewerSpec.js:636-735 | a deleted log shows the no-entries message; while running the log flags are kept, and in a terminal mode the looping stops |
| JobLogViewer.StoppedIsSilent | test/unit/spec/util/jobLogViewerSpec.js:243-253 | after stop, status updates, ticks, does-not-exist and log-deleted messages change nothing, and the viewer neither listens, waits nor loops |
| JobLogViewer.Viewer.constructor | test/unit/spec/util/jobLogViewerSpec.js:206-221 | a new viewer's fields are the initial state |
| JobLogViewer.Viewer.Send | test/unit/spec/util/jobLogViewerSpec.js:254-268 | a request is appended to the messages sent |
| JobLogViewer.Viewer.Start | test/unit/spec/util/jobLogViewerSpec.js:228-268 | start reports the start check; a failed start changes nothing, a successful one leaves the state of Started |
| JobLogViewer.Viewer.Begin | test/unit/spec/util/jobLogViewerSpec.js:254-301 | the fields become the just-started state for the job, and the invariant holds |
| JobLogViewer.Viewer.ReceiveStatus | test/unit/spec/util/jobLogViewerSpec.js:403-521 | the fields move as OnStatus says and the invariant holds |
| JobLogViewer.Viewer.Apply | test/unit/spec/util/jobLogViewerSpec.js:403-437 | the fields move as ApplyStatus says and the invariant holds |
| JobLogViewer.Viewer.ReceiveLogs | test/unit/spec/util/jobLogViewerSpec.js:583-633 | the fields move as OnLogs says and the invariant holds |
| JobLogViewer.Viewer.ReceiveLogDeleted | test/unit/spec/util/jobLogViewerSpec.js:636-735 | the fields move as OnLogDeleted says and the invariant holds |
| JobLogViewer.Viewer.ReceiveDoesNotExist | test/unit/spec/util/jobLogViewerSpec.js:438-461 | the fields move as OnDoesNotExist says and the invariant holds |
| JobLogViewer.Viewer.Tick | test/unit/spec/util/jobLogViewerSpec.js:583-633 | the fields move as OnTick says and the invariant holds |
| JobLogViewer.OnStop | test/unit/spec/util/jobLogViewerSpec.js:243-253 | stopping clears attachment and every flag, and keeps the mode, the display and the requests sent |
| JobLogViewer.OnDetach | test/unit/spec/util/jobLogViewerSpec.js:243-253 | detaching stops the viewer and clears the status lines, the error line and the log panel, keeping the mode and the requests sent |
| JobLogViewer.Viewer.Stop | test/unit/spec/util/jobLogViewerSpec.js:243-253 | the fields move as OnStop says and the invariant holds |
| JobLogViewer.Viewer.Detach | test/unit/spec/util/jobLogViewerSpec.js:243-253 | the fields move as OnDetach says and the invariant holds |
| Ui.HtmlEncode | kbase-extension/static/kbase/js/common/ui.js:34-41 | a string with none of &, ', ", <, > comes back unchanged, and any other string comes back strictly longer (escaping never shortens) |
| Ui.HtmlEncodeCountApos | kbase-extension/static/kbase/js/common/ui.js:34-41 | encoding removes exactly one apostrophe when there is one, and none otherwise |
| Ui.HtmlEncodeCountQuot | kbase-extension/static/kbase/js/common/ui.js:34-41 | encoding removes exactly one double quote when there is one |
| Ui.HtmlEncodeCountLt | kbase-extension/static/kbase/js/common/ui.js:34-41 | encoding removes exactly one less-than sign when there is one |
| Ui.HtmlEncodeCountGt | kbase-extension/static/kbase/js/common/ui.js:34-41 | encoding removes exactly one greater-than sign when there is one |
| Ui.HtmlEncodeCountAmp | kbase-extension/static/kbase/js/common/ui.js:34-41 | the ampersands grow by one for each of the other four characters present; the ampersand itself is replaced by an entity holding one ampersand |
| Ui.HtmlEncodeLength | kbase-extension/static/kbase/js/common/ui.js:34-41 | the encoded length grows by 4, 5, 5, 3 and 3 for each of &, ', ", <, > that occurs |
| Ui.HtmlEncodeUnchanged | kbase-extension/static/kbase/js/common/ui.js:34-41 | a string is left unchanged exactly when it contains none of the five special characters |
| Ui.HtmlEncodeEscapesOnlyFirst | kbase-extension/static/kbase/js/common/ui.js:35-40 | only the first occurrence is escaped: "<<" encodes to "&lt;<" |
| Ui.CamelToHyphen | kbase-extension/static/kbase/js/common/ui.js:1225-1229 | no upper-case letter is left, the result is one character longer per upper-case letter, and a single character becomes '-' and its lower case when it is upper case and is kept otherwise |
| Ui.CamelToHyphenAppend | kbase-extension/static/kbase/js/common/ui.js:1225-1229 | the conversion of a concatenation is the concatenation of the conversions, so with the single-character case it fixes the result for every input, hyphens included |
| Ui.CamelToHyphenRoundTrip | kbase-extension/static/kbase/js/common/ui.js:1225-1229 | for a string without hyphens, hyphen-to-camel undoes the conversion |
| Ui.ElementAttrs | kbase-extension/static/kbase/js/common/ui.js:650-664 | one data-element attribute selector per name, in order |
| Ui.GetElement | kbase-extension/static/kbase/js/common/ui.js:650-664 | the whole container exactly for an empty name list; otherwise the descendant selector of the names |
| Ui.GetElements | kbase-extension/static/kbase/js/common/ui.js:670-681 | a SyntaxError (None) exactly when getElement would return the whole container; otherwise the same selector as getElement |
| Ui.DottedPathIsSegments | kbase-extension/static/kbase/js/common/ui.js:650-681 | a dotted path selects what its list of segments selects |
| Ui.ElementSelectorSegments | kbase-extension/static/kbase/js/common/ui.js:650-664 | the selector splits on spaces back into one attribute selector per name |
| Ui.SegmentSelector | kbase-extension/static/kbase/js/common/ui.js:727-732 | an empty segment gives the empty selector and a one-attribute segment gives `[data-key="value"]` |
| Ui.SegmentSelectorAppend | kbase-extension/static/kbase/js/common/ui.js:727-732 | the selectors of a segment's attributes are concatenated in the segment's order |
| Ui.FindNode | kbase-extension/static/kbase/js/common/ui.js:724-737 | None (querySelector's SyntaxError) exactly when no segment holds an attribute; a one-segment path gives that segment's selector |
| Ui.FindNodeSegments | kbase-extension/static/kbase/js/common/ui.js:724-737 | the selector splits on spaces back into one selector per segment, in order, when no key or value holds a space |
| Ui.FindNodeOfElements | kbase-extension/static/kbase/js/common/ui.js:724-737 | a node path of single element attributes gives getElements' selector, and the same SyntaxError for an empty path |
| Ui.BuildPresentableJson | kbase-extension/static/kbase/js/common/ui.js:1274-1307 | a table exactly for arrays and objects, with rows keyed by index or by property key in order; booleans as "true" or "false", null as "NULL"; undefined and functions as not representable with their type |
| Ui.PresentableRows | kbase-extension/static/kbase/js/common/ui.js:1286-1303 | each row's value is the presentation of the matching element or property |
| Ui.PresentableScalar | kbase-extension/static/kbase/js/common/ui.js:1275-1283 | scalars are shown as text: strings as themselves, numbers as decimals that read back as the number |
| Ui.NonEmptyLines | kbase-extension/static/kbase/js/common/ui.js:1350-1351 | only non-empty lines are kept, all of them from the input; nothing is dropped when no line is empty; one line is kept exactly when it is non-empty |
| Ui.NonEmptyLinesAppend | kbase-extension/static/kbase/js/common/ui.js:1350-1351 | the non-empty lines of a concatenation are those of each part in turn, so the filter keeps the order of the lines |
| Ui.BuildErrorStacktrace | kbase-extension/static/kbase/js/common/ui.js:1340-1362 | one encoded entry per non-empty line of the stack, in order |
| Ui.StacktraceOfPlainStack | kbase-extension/static/kbase/js/common/ui.js:1340-1362 | for a stack without special characters or empty lines, the entries joined by newlines give the stack back |
| Ui.GetUserSetting | kbase-extension/static/kbase/js/common/ui.js:954-964 | the default when the settings are missing or lack the key; otherwise the setting; anything but the default comes from a property with that key |
| Ui.DialogFooter | kbase-extension/static/kbase/js/common/ui.js:513-534 | the caller's buttons come first in order, with their class, action and caption, and the dismissing cancel button is last |
| UiBuilders.IdForInjective | kbase-extension/static/kbase/js/common/ui.js:164-165 | distinct counter values give distinct ids |
| UiBuilders.IdSource.constructor | kbase-extension/static/kbase/js/common/ui.js:164-165 | the counter starts at the given value |
| UiBuilders.IdSource.GenId | kbase-extension/static/kbase/js/common/ui.js:164-165 | each id is the current counter value's id, and the counter moves on by one |
| UiBuilders.ClassAttrSplits | kbase-extension/static/kbase/js/common/ui.js:73-111 | a class attribute splits back into its class names |
| UiBuilders.SetStyle | kbase-extension/static/kbase/js/common/ui.js:217-253 | setting a style key gives it the new value, leaves other keys alone, adds the key and keeps keys unique |
| UiBuilders.OverlayValue | kbase-extension/static/kbase/js/common/ui.js:239-243 | after overlaying the caller's style, a key has the caller's last value for it, or else its base value |
| UiBuilders.SizeClass | kbase-extension/static/kbase/js/common/ui.js:227-233 | one size class exactly when the size is a non-zero number or a non-empty name; a name gives 'fa-' and the name |
| UiBuilders.NumSizeClass | kbase-extension/static/kbase/js/common/ui.js:227-230 | a numeric size N gives 'fa-', the digits of N and 'x', and the digits read back as N |
| UiBuilders.OptionClasses | kbase-extension/static/kbase/js/common/ui.js:221-233 | one class per truthy option: 'fa-rotate-' and the rotation first, then 'fa-flip-' and the flip, then the size class last |
| UiBuilders.IconClasses | kbase-extension/static/kbase/js/common/ui.js:217-238 | the classes start with fa and fa-name, then exactly the option classes, and end with the caller's classes |
| UiBuilders.IconStyleLookup | kbase-extension/static/kbase/js/common/ui.js:218-245 | the icon style's lookup agrees with the reference lookup, and its keys are unique |
| UiBuilders.PushAll | kbase-extension/static/kbase/js/common/ui.js:233-237 | pushing each extra item appends them all in order |
| UiBuilders.OverlayStyle | kbase-extension/static/kbase/js/common/ui.js:239-243 | copying the caller's style entries one by one gives the overlay |
| UiBuilders.BuildIcon | kbase-extension/static/kbase/js/common/ui.js:217-253 | the icon's classes are IconClasses ('fa', 'fa-' and the name, the rotate, flip and size classes, then the caller's classes), its style has the reference value for every key, and the keys are unique |
| UiBuilders.PanelClassesHidden | kbase-extension/static/kbase/js/common/ui.js:73-111 | the first two classes are 'panel' and 'panel-' with the type, 'primary' when no type is given; "hidden" is among the panel classes exactly when the panel is hidden or the caller asked for it; the caller's classes come last |
| UiBuilders.BuildPanel | kbase-extension/static/kbase/js/common/ui.js:73-111 | the panel's class is the panel classes (their content stated by PanelClassesHidden), its data-element is the name, and it has a heading exactly when there is a title |
| UiBuilders.CollapseClasses | kbase-extension/static/kbase/js/common/ui.js:163-215 | the body is open ("in") exactly when the panel is not collapsed |
| UiBuilders.ToggleClasses | kbase-extension/static/kbase/js/common/ui.js:163-215 | the toggle is marked collapsed exactly when the panel is |
| UiBuilders.BuildCollapsiblePanel | kbase-extension/static/kbase/js/common/ui.js:163-215 | takes two ids without a caller id and one with; the panel id is the caller's or a fresh one, distinct from the collapse id; the toggle targets the collapse body; classes follow the collapsed flag |
| UiBuilders.FilterTabs | kbase-extension/static/kbase/js/common/ui.js:1054-1056 | exactly the truthy tabs are kept; one tab is kept exactly when it is given |
| UiBuilders.FilterTabsAppend | kbase-extension/static/kbase/js/common/ui.js:1054-1056 | the kept tabs of a concatenation are those of each part in turn, so the filter keeps the order of the tabs |
| UiBuilders.WithIds | kbase-extension/static/kbase/js/common/ui.js:1076-1092 | each kept tab gets ids, one tab per spec |
| UiBuilders.WithIdsDistinct | kbase-extension/static/kbase/js/common/ui.js:1076-1092 | all tab ids and panel ids are distinct from one another |
| UiBuilders.Reversed | kbase-extension/static/kbase/js/common/ui.js:1093-1094 | the reversal holds the same elements in reverse order |
| UiBuilders.ReverseInPlace | kbase-extension/static/kbase/js/common/ui.js:1093-1094 | reversing the array in place leaves the reversal of its old contents |
| UiBuilders.Arranged | kbase-extension/static/kbase/js/common/ui.js:1093-1104 | the arranged tabs are as many as the kept tabs |
| UiBuilders.TabHeaders | kbase-extension/static/kbase/js/common/ui.js:1105-1139 | one header per tab |
| UiBuilders.TabPanels | kbase-extension/static/kbase/js/common/ui.js:1141-1158 | one panel per tab |
| UiBuilders.TabsOf | kbase-extension/static/kbase/js/common/ui.js:1049-1165 | as many headers and panels as kept tabs, and header k and panel k share a panel id |
| UiBuilders.NameMapStep | kbase-extension/static/kbase/js/common/ui.js:1079-1081 | adding one tab adds its name, when it has one, mapped to its tab id |
| UiBuilders.AssignIds | kbase-extension/static/kbase/js/common/ui.js:1076-1092 | a fresh array holds the tabs with their ids, the name map is that of the tabs, and two ids are taken per tab |
| UiBuilders.BuildTabs | kbase-extension/static/kbase/js/common/ui.js:1049-1165 | the result is TabsOf for the counter's old value, and two ids are taken per kept tab |
| UiBuilders.ActiveHeaderIsInitialTab | kbase-extension/static/kbase/js/common/ui.js:1093-1136 | a header is active exactly when a numeric initial tab is in range and the header belongs to the tab at that position before reversal |
| UiBuilders.ShownPanelMatchesActiveHeader | kbase-extension/static/kbase/js/common/ui.js:1132-1155 | the first panel is always the active one, and it belongs to the active header exactly when the initial tab is the first tab shown |
| UiBuilders.OnlyFirstPanelActive | kbase-extension/static/kbase/js/common/ui.js:1143-1155 | only the first panel carries the active class |
| UiBuilders.LastNamed | kbase-extension/static/kbase/js/common/ui.js:1079-1081 | finds the last tab with the given name, or reports that none has it |
| UiBuilders.NameMapLast | kbase-extension/static/kbase/js/common/ui.js:1076-1092 | a name is in the tab map exactly when it is non-empty and some tab has it; it maps to the tab id of the last such tab |

## Left out

- The DOM, the HTML tag builders and jQuery events are not modelled. Markup is reduced to the classes, ids, selectors and rows that go into it. This also covers the style attributes and `tabsId` of buildTabs, tab icons and tab events.
- The dialog helpers show the dialogs, wait for events and tear them down. Only the order and attributes of renderDialog's footer buttons are modelled.
- `html.genId`: its id format is not part of this model. Ids are a counter: `IdSource` gives the string of its next value, which keeps ids distinct.
- getNode, getButton, makePanel, makeCollapsiblePanel, jsonBlockWidget, buildButton, buildGridTable, buildErrorTabs and the other `common/ui` members are outside the modelled core.
- The loop that updates a tab's content after the tabs are built is not modelled.
- UiBuilders.BuildTabs: works on copies of the tab specs. It does not model the source's writing of `panelId` and `tabId` into the caller's own tab objects (aliasing). The reversal for right-aligned tabs acts on the filtered copy, as in the source, so the caller's array keeps its order.
- JsValue.Js: an `Obj` lists its properties with distinct keys, already in the order Object.keys reports (integer-like keys first, ascending). Neither is checked: an `Obj` with a repeated key is not a JavaScript object, and buildPresentableJson would give it one row per repeat.
- Ui.FindNode: a selector is rejected only when it is blank. Keys or values holding characters that make the selector invalid CSS are not modelled.
- Ui.FindNodeSegments: stated only for keys and values without spaces, since splitting on ' ' would cut a value holding a space in two; the selector itself is built the same way for every key and value.
- Floating-point numbers are not modelled; `Js` numbers are integers. So buildPresentableJson, the times and the durations hold integral values.
- Jobs.HistoryByPhase: time and duration formatting (`format.niceTime`, `format.niceDuration`) is a `Formatter` parameter, so only the wording around the formatted values is stated.
- The `canCancel` and `canRetry` checks are not modelled; their expected values live only in the test data.
- The job log viewer's message bus, timers and polling interval are not modelled. Each message and each poll tick is a method call; requests that would go on the bus are appended to the `sent` list.
- The `request-job-update` message, which the viewer may send while a job is in progress, is not modelled: the tests answer it with a status message but do not pin when it is sent. The `Request` datatype has no constructor for it.
- JobLogViewer.ApplyStatusEffects: its "nothing else is sent" covers the modelled requests only; a `request-job-update` the source may also send is not modelled.
- Jobs.CreateJobStatusLines: the record `{job_state: 'does_not_exist'}` (a `job_state` key in place of `status`) is rejected by the validator, so the model gives it the "Determining job state..." line; the source's test expects the not-found line for it, by a rule that is not part of this model.
- The disabled "lifecycle" suite of the log-viewer tests (jobLogViewerSpec.js lines 741-963) is not modelled. It is switched off in the source.
- JobLogViewer.OnLogs: a running viewer shows the lines of the latest response. It does not model the accumulation of lines across polls that the source's display shows.
- Ui.GetUserSetting: a truthy settings value that is not an object has no properties, so the default is returned. Lookups on strings or arrays by property name are not modelled.
- Ui.HtmlEncodeCountAmp: it states the change in counts, not the positions of the inserted entities. Positions are given by `Text.ReplaceFirstAt` for each step.
