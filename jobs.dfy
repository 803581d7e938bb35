/** The job classifier of the narrative's `common/jobs` module: validation of raw job-state
    and job-info records, the terminal-status predicate, the status-to-label, action and
    "nice state" mappings, the app-cell status cell, the status lines of one job, the
    combined summary of a batch of jobs and the index of a job list by id and status.

    Every operation takes the raw JavaScript value it is given (a record received from the
    execution engine, or a bare `{status: ...}`), so that the behaviour on malformed input is
    part of the model. The time formatters `format.niceTime` and `format.niceDuration` are
    outside the model and are passed in as a Formatter. */
module Jobs {
  import opened Wrappers
  import opened Text
  import opened JsValue

  // ---------------------------------------------------------------------------------------
  // Statuses

  /** The eight job statuses reported by the execution engine (does_not_exist is added by the
      narrative backend for job ids it does not know). */
  datatype Status = Created | Estimating | Queued | Running | Completed | Error | Terminated | DoesNotExist

  /** The wire name of a status. */
  function StatusName(st: Status): string {
    match st
    case Created => "created"
    case Estimating => "estimating"
    case Queued => "queued"
    case Running => "running"
    case Completed => "completed"
    case Error => "error"
    case Terminated => "terminated"
    case DoesNotExist => "does_not_exist"
  }

  /** The status whose wire name is s, if there is one. */
  function StatusFromName(s: string): (r: Option<Status>)
    ensures r.Some? ==> StatusName(r.value) == s
  {
    if s == "created" then Some(Created)
    else if s == "estimating" then Some(Estimating)
    else if s == "queued" then Some(Queued)
    else if s == "running" then Some(Running)
    else if s == "completed" then Some(Completed)
    else if s == "error" then Some(Error)
    else if s == "terminated" then Some(Terminated)
    else if s == "does_not_exist" then Some(DoesNotExist)
    else None
  }

  /** The status a raw status value denotes: only a string holding one of the eight wire names. */
  function ParseStatus(v: Js): (r: Option<Status>)
    ensures r.Some? ==> v == Str(StatusName(r.value))
  {
    if v.Str? then StatusFromName(v.s) else None
  }

  /** Every status is recognised from its wire name. */
  lemma ParseStatusName(st: Status)
    ensures ParseStatus(Str(StatusName(st))) == Some(st)
  {
    match st
    case Created =>
    case Estimating =>
    case Queued =>
    case Running =>
    case Completed =>
    case Error =>
    case Terminated =>
    case DoesNotExist =>
  }

  /** A status after which no further progress is expected. */
  predicate IsTerminal(st: Status) {
    st == Completed || st == Error || st == Terminated || st == DoesNotExist
  }

  /** isTerminalStatus: true exactly for the four terminal wire names; every other value,
      including undefined, null, numbers and unknown strings, is not terminal. */
  function IsTerminalStatus(status: Js): (r: bool)
    ensures r <==> status in [Str("completed"), Str("terminated"), Str("error"), Str("does_not_exist")]
  {
    var st := ParseStatus(status);
    st.Some? && IsTerminal(st.value)
  }

  // ---------------------------------------------------------------------------------------
  // Validation

  /** isValidJobStateObject: an object (not an array, null or undefined) with a non-empty
      string job_id, a status among the eight wire names and a numeric created timestamp;
      other keys are allowed. */
  predicate IsValidJobStateObject(v: Js)
    ensures IsValidJobStateObject(v) ==> v.Obj? && |v.props| >= 3
  {
    v.Obj?
    && Get(v, "job_id").Str? && Get(v, "job_id").s != ""
    && ParseStatus(Get(v, "status")).Some?
    && Get(v, "created").Num?
    && (ThreeKeysPresent(v.props, "job_id", "status", "created"); true)
  }

  /** An object with at least one property. */
  predicate IsNonEmptyObject(v: Js) {
    v.Obj? && |v.props| > 0
  }

  /** isValidJobInfoObject: an object with a string or numeric job_id and a non-empty
      job_params array whose every element is an object with at least one key. */
  predicate IsValidJobInfoObject(v: Js)
    ensures IsValidJobInfoObject(v) ==> v.Obj? && |v.props| >= 2
  {
    v.Obj?
    && (Get(v, "job_id").Str? || Get(v, "job_id").Num?)
    && Get(v, "job_params").Arr?
    && |Get(v, "job_params").items| > 0
    && (TwoKeysPresent(v.props, "job_id", "job_params"); true)
    && forall k :: 0 <= k < |Get(v, "job_params").items| ==> IsNonEmptyObject(Get(v, "job_params").items[k])
  }

  /** The structured error of a failed job. */
  datatype JobError = JobError(code: int, name: string, message: string)

  /** A validated job-state record. Timestamps are epoch milliseconds. */
  datatype JobState = JobState(
    jobId: string,
    status: Status,
    created: int,
    queued: Option<int>,
    running: Option<int>,
    finished: Option<int>,
    updated: Option<int>,
    error: Option<JobError>)

  function NumField(v: Js): Option<int> {
    if v.Num? then Some(v.n) else None
  }

  function ParseError(v: Js): Option<JobError> {
    if Get(v, "code").Num? && Get(v, "name").Str? && Get(v, "message").Str?
    then Some(JobError(Get(v, "code").n, Get(v, "name").s, Get(v, "message").s))
    else None
  }

  /** Reads a raw record as a job state; defined exactly on the records the validator accepts. */
  function ParseJobState(v: Js): (r: Option<JobState>)
    ensures r.Some? <==> IsValidJobStateObject(v)
    ensures r.Some? ==> r.value.jobId != "" && Get(v, "status") == Str(StatusName(r.value.status))
  {
    if !IsValidJobStateObject(v) then None
    else
      Some(JobState(
        Get(v, "job_id").s,
        ParseStatus(Get(v, "status")).value,
        Get(v, "created").n,
        NumField(Get(v, "queued")),
        NumField(Get(v, "running")),
        NumField(Get(v, "finished")),
        NumField(Get(v, "updated")),
        ParseError(Get(v, "error"))))
  }

  function OptionalNum(o: Option<int>): Js {
    if o.Some? then Num(o.value) else Undefined
  }

  function ErrorToJs(e: JobError): Js {
    Obj([Prop("code", Num(e.code)), Prop("name", Str(e.name)), Prop("message", Str(e.message))])
  }

  /** The record the execution engine sends for a job state; absent timestamps are undefined. */
  function JobStateToJs(j: JobState): Js {
    Obj([
      Prop("job_id", Str(j.jobId)),
      Prop("status", Str(StatusName(j.status))),
      Prop("created", Num(j.created)),
      Prop("queued", OptionalNum(j.queued)),
      Prop("running", OptionalNum(j.running)),
      Prop("finished", OptionalNum(j.finished)),
      Prop("updated", OptionalNum(j.updated)),
      Prop("error", if j.error.Some? then ErrorToJs(j.error.value) else Undefined)])
  }

  lemma ParseErrorToJs(e: JobError)
    ensures ParseError(ErrorToJs(e)) == Some(e)
  {
    var ps := ErrorToJs(e).props;
    LookupAt(ps, 0, "code");
    LookupAt(ps, 1, "name");
    LookupAt(ps, 2, "message");
  }

  /** Each field of an encoded record is found under its key. */
  lemma JobStateToJsField(j: JobState, i: nat)
    requires i < 8
    ensures Get(JobStateToJs(j), JobStateToJs(j).props[i].key) == JobStateToJs(j).props[i].value
  {
    LookupAt(JobStateToJs(j).props, i, JobStateToJs(j).props[i].key);
  }

  /** Every record with a non-empty id is accepted by the validator and read back unchanged. */
  lemma JobStateRoundTrip(j: JobState)
    requires j.jobId != ""
    ensures IsValidJobStateObject(JobStateToJs(j))
    ensures ParseJobState(JobStateToJs(j)) == Some(j)
  {
    var v := JobStateToJs(j);
    JobStateToJsValid(j);
    JobStateToJsField(j, 3);
    JobStateToJsField(j, 4);
    JobStateToJsField(j, 5);
    JobStateToJsField(j, 6);
    JobStateToJsField(j, 7);
    assert NumField(Get(v, "queued")) == j.queued;
    assert NumField(Get(v, "running")) == j.running;
    assert NumField(Get(v, "finished")) == j.finished;
    assert NumField(Get(v, "updated")) == j.updated;
    if j.error.Some? {
      ParseErrorToJs(j.error.value);
    }
    assert ParseError(Get(v, "error")) == j.error;
  }

  /** The identifying fields of an encoded record read back as they were written. */
  lemma JobStateToJsValid(j: JobState)
    requires j.jobId != ""
    ensures IsValidJobStateObject(JobStateToJs(j))
    ensures Get(JobStateToJs(j), "job_id") == Str(j.jobId)
    ensures ParseStatus(Get(JobStateToJs(j), "status")) == Some(j.status)
    ensures Get(JobStateToJs(j), "created") == Num(j.created)
  {
    JobStateToJsField(j, 0);
    JobStateToJsField(j, 1);
    JobStateToJsField(j, 2);
    ParseStatusName(j.status);
  }

  // ---------------------------------------------------------------------------------------
  // Labels, actions and nice states

  /** The status a raw job record carries, if its status field holds a known status. */
  function StatusOf(job: Js): Option<Status> {
    ParseStatus(Get(job, "status"))
  }

  /** The canonical buckets used for labels and batch counts. */
  datatype Bucket = QueuedBucket | RunningBucket | SuccessBucket | FailedBucket | CancelledBucket | NotFoundBucket

  /** The bucket a raw job record falls in. */
  function JobBucket(job: Js): Bucket {
    BucketOf(StatusOf(job))
  }

  function BucketOf(st: Option<Status>): Bucket {
    match st
    case None => NotFoundBucket
    case Some(s) =>
      match s
      case Created => QueuedBucket
      case Estimating => QueuedBucket
      case Queued => QueuedBucket
      case Running => RunningBucket
      case Completed => SuccessBucket
      case Error => FailedBucket
      case Terminated => CancelledBucket
      case DoesNotExist => NotFoundBucket
  }

  function BucketLabel(b: Bucket): (r: string)
    ensures r == "queued" <==> b == QueuedBucket
    ensures r == "running" <==> b == RunningBucket
    ensures r == "success" <==> b == SuccessBucket
    ensures r == "cancelled" <==> b == CancelledBucket
    ensures r == "not found" <==> b == NotFoundBucket
  {
    match b
    case QueuedBucket => "queued"
    case RunningBucket => "running"
    case SuccessBucket => "success"
    case FailedBucket => "failed"
    case CancelledBucket => "cancelled"
    case NotFoundBucket => "not found"
  }

  /** The short name of a record's error, when the record carries one. */
  function ErrorName(job: Js): Option<string> {
    var n := Get(Get(job, "error"), "name");
    if n.Str? then Some(n.s) else None
  }

  /** jobLabel: the abbreviated label of a job; with includeError a failed job that carries
      an error is labelled with the error's name. */
  function JobLabel(job: Js, includeError: bool): (r: string)
    ensures r == "queued" <==> StatusOf(job) in {Some(Created), Some(Estimating), Some(Queued)}
    ensures r == "running" <==> StatusOf(job) == Some(Running)
    ensures r == "success" <==> StatusOf(job) == Some(Completed)
    ensures r == "cancelled" <==> StatusOf(job) == Some(Terminated)
    ensures r == "not found" <==> StatusOf(job).None? || StatusOf(job) == Some(DoesNotExist)
    ensures StatusOf(job) == Some(Error) ==>
              r == if includeError && ErrorName(job).Some? then "failed: " + ErrorName(job).value else "failed"
  {
    var b := BucketOf(StatusOf(job));
    if includeError && b == FailedBucket && ErrorName(job).Some? then
      var r := "failed: " + ErrorName(job).value;
      assert r[0] == 'f' && r[1] == 'a' && r[6] == ':';
      r
    else BucketLabel(b)
  }

  /** jobAction: the action a user can take on the job, or null for an unrecognised status. */
  function JobAction(job: Js): (r: Option<string>)
    ensures r.None? <==> StatusOf(job).None?
    ensures r == Some("cancel") <==> StatusOf(job).Some? && !IsTerminal(StatusOf(job).value)
    ensures r == Some("go to results") <==> StatusOf(job) == Some(Completed)
    ensures r == Some("retry") <==>
              StatusOf(job).Some? && IsTerminal(StatusOf(job).value) && StatusOf(job) != Some(Completed)
  {
    match StatusOf(job)
    case None => None
    case Some(st) =>
      match st
      case Created => Some("cancel")
      case Estimating => Some("cancel")
      case Queued => Some("cancel")
      case Running => Some("cancel")
      case Completed => Some("go to results")
      case Error => Some("retry")
      case Terminated => Some("retry")
      case DoesNotExist => Some("retry")
  }

  const SummaryClass := "kb-job-status__summary"

  /** The span niceState renders: its class and its text. */
  datatype NiceStateSpan = NiceStateSpan(cssClass: string, text: string)

  /** niceState: in-progress statuses keep the base class and show their own name; terminal
      statuses get the base class suffixed with "--" and the status name; anything else is
      shown as "invalid" with the base class. */
  function NiceState(status: Js): (r: NiceStateSpan)
    ensures r.text == "invalid" <==> ParseStatus(status).None?
    ensures r.cssClass == SummaryClass <==> !IsTerminalStatus(status)
    ensures IsTerminalStatus(status) ==> r.cssClass == SummaryClass + "--" + status.s
    ensures ParseStatus(status).Some? && !IsTerminalStatus(status) ==> r.text == status.s
    ensures status == Str("completed") ==> r.text == "success"
    ensures status == Str("error") ==> r.text == "error"
    ensures status == Str("terminated") ==> r.text == "cancellation"
    ensures status == Str("does_not_exist") ==> r.text == "does not exist"
  {
    match ParseStatus(status)
    case None => NiceStateSpan(SummaryClass, "invalid")
    case Some(st) =>
      if IsTerminal(st) then NiceStateSpan(SummaryClass + "--" + StatusName(st), TerminalLabel(st))
      else NiceStateSpan(SummaryClass, StatusName(st))
  }

  /** The text niceState shows for a terminal status (an in-progress one shows its name). */
  function TerminalLabel(st: Status): (t: string)
    ensures t != "invalid"
  {
    match st
    case Completed => "success"
    case Error => "error"
    case Terminated => "cancellation"
    case DoesNotExist => "does not exist"
    case _ => StatusName(st)
  }

  /** The error text shown for a failed job: its name, then its code. */
  function ErrorString(e: JobError): (r: string)
    ensures |r| > |e.name| + 14 && r[..|e.name| + 14] == e.name + ": Error code: "
    ensures r[|e.name| + 14..] == IntToString(e.code)
  {
    var r := e.name + ": Error code: " + IntToString(e.code);
    assert r[|e.name| + 14..] == IntToString(e.code);
    r
  }

  /** The text after "name: Error code: " reads back as the error's code. */
  lemma ErrorStringCode(e: JobError)
    ensures var r := ErrorString(e);
            var tail := r[|e.name| + 14..];
            |tail| >= 1 && (tail[0] == '-' ==> AllDigits(tail[1..])) && (tail[0] != '-' ==> AllDigits(tail)) &&
            ParseInt(tail) == e.code
  {
    IntToStringRoundTrip(e.code);
  }

  /** Two errors with the same name and the same error text have the same code. */
  lemma ErrorStringDeterminesCode(e1: JobError, e2: JobError)
    requires e1.name == e2.name && ErrorString(e1) == ErrorString(e2)
    ensures e1.code == e2.code
  {
    var prefix := e1.name + ": Error code: ";
    assert ErrorString(e1) == prefix + IntToString(e1.code);
    assert ErrorString(e2) == prefix + IntToString(e2.code);
    assert IntToString(e1.code) == ErrorString(e1)[|prefix|..];
    assert IntToString(e2.code) == ErrorString(e2)[|prefix|..];
    IntToStringInjective(e1.code, e2.code);
  }

  // ---------------------------------------------------------------------------------------
  // The app-cell status cell

  const CellSummaryClass := "kb-job-status__cell_summary--"

  /** The status span createJobStatusFromFsm renders, or no span (the empty string). */
  datatype StatusCell = NoCell | StatusCell(text: string, cssClass: string)

  /** The status name a cell class ends with. */
  function CellStatus(cssClass: string): string {
    if |cssClass| >= |CellSummaryClass| then cssClass[|CellSummaryClass|..] else ""
  }

  /** createJobStatusFromFsm: the status cell for an app-cell FSM mode and stage. Errors and
      cancellations show regardless of the stage; processing shows only for the running and
      queued stages; every other combination renders nothing. The cell's class always names a
      job status, terminal exactly when the mode is not processing. */
  function CreateJobStatusFromFsm(mode: string, stage: string): (r: StatusCell)
    ensures r.StatusCell? <==>
              mode in ["error", "internal-error", "canceling", "canceled", "success"]
              || (mode == "processing" && stage in ["running", "queued"])
    ensures r.StatusCell? ==>
              r.cssClass == CellSummaryClass + CellStatus(r.cssClass)
              && StatusFromName(CellStatus(r.cssClass)).Some?
              && (IsTerminalStatus(Str(CellStatus(r.cssClass))) <==> mode != "processing")
    ensures mode == "error" || mode == "internal-error" ==> r == StatusCell("error", CellSummaryClass + "error")
    ensures mode == "canceling" || mode == "canceled" ==> r == StatusCell("canceled", CellSummaryClass + "terminated")
    ensures mode == "processing" && stage == "running" ==> r == StatusCell("running", CellSummaryClass + "running")
    ensures mode == "processing" && stage == "queued" ==> r == StatusCell("queued", CellSummaryClass + "queued")
    ensures mode == "success" ==> r == StatusCell("success", CellSummaryClass + "completed")
  {
    var cell := (text: string, status: string) =>
      StatusCell(text, CellSummaryClass + status);
    if mode == "error" || mode == "internal-error" then
      assert CellStatus(CellSummaryClass + "error") == "error";
      cell("error", "error")
    else if mode == "canceling" || mode == "canceled" then
      assert CellStatus(CellSummaryClass + "terminated") == "terminated";
      cell("canceled", "terminated")
    else if mode == "processing" && stage == "running" then
      assert CellStatus(CellSummaryClass + "running") == "running";
      cell("running", "running")
    else if mode == "processing" && stage == "queued" then
      assert CellStatus(CellSummaryClass + "queued") == "queued";
      cell("queued", "queued")
    else if mode == "success" then
      assert CellStatus(CellSummaryClass + "completed") == "completed";
      cell("success", "completed")
    else NoCell
  }

  // ---------------------------------------------------------------------------------------
  // Status lines

  /** The time formatters of `common/format`, which are outside the model. */
  datatype Formatter = Formatter(niceTime: int -> string, niceDuration: int -> string)

  const UnknownLine := "Determining job state..."
  // Written in pieces only so that the verifier sees its characters (it does not unfold
  // a literal this long).
  const NotFoundLine := "This job was not found, " + "or may not have been registered " + "with this narrative."

  predicate IsQueuePhase(st: Status) {
    st == Created || st == Estimating || st == Queued
  }

  /** The status word of a finished job's last line. */
  function FinishWord(st: Status): string {
    if st == Terminated then "cancellation" else if st == Error then "error" else "success"
  }

  /** The single line describing the job's current phase (history off). A phase whose
      timestamp is missing is described by the unknown-state line. */
  function CurrentStatusLine(j: JobState, fmt: Formatter): (r: string)
    ensures r == NotFoundLine <==> j.status == DoesNotExist
    ensures r == UnknownLine <==>
              (j.status == Running && j.running.None?) ||
              (IsTerminal(j.status) && j.status != DoesNotExist && j.finished.None?)
  {
    // The lines are told apart by their first characters.
    assert UnknownLine[0] == 'D';
    assert NotFoundLine[0] == 'T';
    if j.status == DoesNotExist then NotFoundLine
    else if IsQueuePhase(j.status) then
      var line := "In the queue since " + fmt.niceTime(j.created);
      assert line[0] == 'I';
      line
    else if j.status == Running then
      if j.running.Some? then
        var line := "Started running job at " + fmt.niceTime(j.running.value);
        assert line[0] == 'S';
        line
      else UnknownLine
    else if j.finished.Some? then
      var line := "Finished with " + FinishWord(j.status) + " at " + fmt.niceTime(j.finished.value);
      assert line[0] == 'F';
      line
    else UnknownLine
  }

  /** The lines of the job's history (history on): how long it queued (until it ran or,
      if it never ran, until it finished), how long it ran, and how it ended. */
  function StatusHistory(j: JobState, fmt: Formatter): (h: seq<string>)
    ensures 1 <= |h| <= 3
    ensures j.status == DoesNotExist ==> h == [NotFoundLine]
    ensures h[|h| - 1] == CurrentStatusLine(j, fmt)
  {
    match j.status
    case DoesNotExist => [NotFoundLine]
    case Created => ["In the queue since " + fmt.niceTime(j.created)]
    case Estimating => ["In the queue since " + fmt.niceTime(j.created)]
    case Queued => ["In the queue since " + fmt.niceTime(j.created)]
    case Running =>
      if j.running.None? then [UnknownLine]
      else
        var started := j.running.value;
        ["Queued for " + fmt.niceDuration(started - j.created), "Started running job at " + fmt.niceTime(started)]
    case _ =>
      if j.finished.None? then [UnknownLine]
      else
        var ended := j.finished.value;
        var endLine := "Finished with " + FinishWord(j.status) + " at " + fmt.niceTime(ended);
        if j.running.Some? then
          var started := j.running.value;
          ["Queued for " + fmt.niceDuration(started - j.created), "Ran for " + fmt.niceDuration(ended - started), endLine]
        else
          ["Queued for " + fmt.niceDuration(ended - j.created), endLine]
  }

  /** createJobStatusLines: the status lines of a raw record, as the history or as the current
      line only. A record the validator rejects gets the unknown-state line either way. */
  function CreateJobStatusLines(v: Js, includeHistory: bool, fmt: Formatter): (r: seq<string>)
    ensures !IsValidJobStateObject(v) ==> r == [UnknownLine]
    ensures !includeHistory ==> |r| == 1
    ensures 1 <= |r| <= 3
  {
    match ParseJobState(v)
    case None => [UnknownLine]
    case Some(j) => if includeHistory then StatusHistory(j, fmt) else [CurrentStatusLine(j, fmt)]
  }

  /** The single-line form is always the last line of the history. */
  lemma CurrentLineEndsHistory(v: Js, fmt: Formatter)
    ensures CreateJobStatusLines(v, false, fmt)[0] == Last(CreateJobStatusLines(v, true, fmt))
  {
    match ParseJobState(v)
    case None =>
    case Some(j) => HistoryEndsWithCurrentLine(j, fmt);
  }

  lemma HistoryEndsWithCurrentLine(j: JobState, fmt: Formatter)
    ensures Last(StatusHistory(j, fmt)) == CurrentStatusLine(j, fmt)
  {
  }

  /** The lines of a valid record are its history, or its current line alone; a record of a
      job that does not exist gives the not-found line either way. */
  lemma StatusLinesOfValidRecord(v: Js, includeHistory: bool, fmt: Formatter)
    requires IsValidJobStateObject(v)
    ensures var j := ParseJobState(v).value;
            && (includeHistory ==> CreateJobStatusLines(v, includeHistory, fmt) == StatusHistory(j, fmt))
            && (!includeHistory ==> CreateJobStatusLines(v, includeHistory, fmt) == [CurrentStatusLine(j, fmt)])
            && (j.status == DoesNotExist ==> CreateJobStatusLines(v, includeHistory, fmt) == [NotFoundLine])
  {
  }

  function Last(s: seq<string>): string
    requires |s| > 0
  {
    s[|s| - 1]
  }

  /** The history of a valid record, by phase: queued jobs show when they were created
      (even when a queued timestamp exists); a running job shows its queue time and its
      start; a finished job shows its queue time, its run time if it ran, and its end. */
  lemma HistoryByPhase(j: JobState, fmt: Formatter)
    ensures j.status == DoesNotExist ==> StatusHistory(j, fmt) == [NotFoundLine]
    ensures IsQueuePhase(j.status) ==> StatusHistory(j, fmt) == ["In the queue since " + fmt.niceTime(j.created)]
    ensures j.status == Running && j.running.Some? ==>
              StatusHistory(j, fmt) == ["Queued for " + fmt.niceDuration(j.running.value - j.created),
                                        CurrentStatusLine(j, fmt)]
    ensures IsTerminal(j.status) && j.status != DoesNotExist && j.finished.Some? && j.running.Some? ==>
              StatusHistory(j, fmt) == ["Queued for " + fmt.niceDuration(j.running.value - j.created),
                                        "Ran for " + fmt.niceDuration(j.finished.value - j.running.value),
                                        CurrentStatusLine(j, fmt)]
    ensures IsTerminal(j.status) && j.status != DoesNotExist && j.finished.Some? && j.running.None? ==>
              StatusHistory(j, fmt) == ["Queued for " + fmt.niceDuration(j.finished.value - j.created),
                                        CurrentStatusLine(j, fmt)]
  {
  }

  // ---------------------------------------------------------------------------------------
  // Batch summary

  /** The number of jobs among jobs whose status falls in bucket b. */
  function CountBucket(jobs: seq<Js>, b: Bucket): (n: nat)
    ensures n <= |jobs|
  {
    if |jobs| == 0 then 0
    else (if JobBucket(jobs[0]) == b then 1 else 0) + CountBucket(jobs[1..], b)
  }

  /** Whether some job of the batch has a status that is not terminal. */
  function AnyInProgress(jobs: seq<Js>): (r: bool)
    ensures r <==> exists k :: 0 <= k < |jobs| && !IsTerminalStatus(Get(jobs[k], "status"))
  {
    if |jobs| == 0 then false
    else
      var rest := AnyInProgress(jobs[1..]);
      assert rest <==> exists k :: 1 <= k < |jobs| && !IsTerminalStatus(Get(jobs[k], "status")) by {
        if rest {
          var k :| 0 <= k < |jobs[1..]| && !IsTerminalStatus(Get(jobs[1..][k], "status"));
          assert jobs[k + 1] == jobs[1..][k];
        }
        if exists k :: 1 <= k < |jobs| && !IsTerminalStatus(Get(jobs[k], "status")) {
          var k :| 1 <= k < |jobs| && !IsTerminalStatus(Get(jobs[k], "status"));
          assert jobs[1..][k - 1] == jobs[k];
        }
      }
      !IsTerminalStatus(Get(jobs[0], "status")) || rest
  }

  /** "N label", with "successes" for more than one success. */
  function BucketPhrase(n: nat, b: Bucket): string {
    NatToString(n) + " " + (if b == SuccessBucket && n != 1 then "successes" else BucketLabel(b))
  }

  /** The buckets of order that hold at least one job, in that order. */
  function NonEmptyBuckets(jobs: seq<Js>, order: seq<Bucket>): (r: seq<Bucket>)
    ensures forall b :: b in r <==> b in order && CountBucket(jobs, b) > 0
  {
    if |order| == 0 then []
    else (if CountBucket(jobs, order[0]) > 0 then [order[0]] else []) + NonEmptyBuckets(jobs, order[1..])
  }

  /** The count phrases of the given buckets, in order. */
  function Phrases(jobs: seq<Js>, buckets: seq<Bucket>): (r: seq<string>)
    ensures |r| == |buckets|
    ensures forall k :: 0 <= k < |r| ==> r[k] == BucketPhrase(CountBucket(jobs, buckets[k]), buckets[k])
  {
    if |buckets| == 0 then []
    else [BucketPhrase(CountBucket(jobs, buckets[0]), buckets[0])] + Phrases(jobs, buckets[1..])
  }

  const InProgressOrder := [QueuedBucket, RunningBucket, SuccessBucket, FailedBucket, CancelledBucket, NotFoundBucket]
  const FinishedOrder := [SuccessBucket, FailedBucket, CancelledBucket, NotFoundBucket]

  /** The outcome named when a finished batch falls in one bucket. */
  function BatchOutcome(b: Bucket): string {
    if b == SuccessBucket then "success" else if b == CancelledBucket then "cancellation" else "error"
  }

  const InProgressPrefix := "batch job in progress: "
  const FinishedPrefix := "batch job finished"

  /** The counts of an unfinished batch, in queue-to-outcome order. */
  function InProgressCounts(jobs: seq<Js>): string {
    Join(Phrases(jobs, NonEmptyBuckets(jobs, InProgressOrder)), ", ")
  }

  /** What follows "batch job finished": the outcome of a batch that falls in one bucket,
      otherwise the list of counts. */
  function FinishedTail(jobs: seq<Js>): string {
    var present := NonEmptyBuckets(jobs, FinishedOrder);
    if |present| == 1 then
      " with " + BatchOutcome(present[0]) + ": " + BucketPhrase(CountBucket(jobs, present[0]), present[0])
    else
      ": " + Join(Phrases(jobs, present), ", ")
  }

  /** The summary text of a non-empty batch. */
  function CombinedText(jobs: seq<Js>): string {
    if AnyInProgress(jobs) then InProgressPrefix + InProgressCounts(jobs) else FinishedPrefix + FinishedTail(jobs)
  }

  /** The summary element createCombinedJobState renders: nothing, or a span whose title
      repeats its text. */
  datatype Summary = NoSummary | SummarySpan(title: string, text: string)

  /** createCombinedJobState: nothing for a missing (null) or empty batch; otherwise a span
      holding the batch summary, titled with the same text. */
  function CreateCombinedJobState(jobs: Option<seq<Js>>): (r: Summary)
    ensures r.NoSummary? <==> jobs.None? || jobs.value == []
    ensures r.SummarySpan? ==> r.title == r.text
  {
    if jobs.None? || jobs.value == [] then NoSummary
    else
      var text := CombinedText(jobs.value);
      SummarySpan(text, text)
  }

  lemma {:induction false} CountBucketAppend(a: seq<Js>, c: seq<Js>, b: Bucket)
    ensures CountBucket(a + c, b) == CountBucket(a, b) + CountBucket(c, b)
    decreases |a|
  {
    if |a| > 0 {
      CountBucketAppend(a[1..], c, b);
      assert (a + c)[1..] == a[1..] + c;
      assert (a + c)[0] == a[0];
    } else {
      assert a + c == c;
    }
  }

  /** Every job falls in exactly one bucket: the six counts add up to the batch size. */
  lemma {:induction false} CountsPartitionBatch(jobs: seq<Js>)
    ensures CountBucket(jobs, QueuedBucket) + CountBucket(jobs, RunningBucket) + CountBucket(jobs, SuccessBucket)
            + CountBucket(jobs, FailedBucket) + CountBucket(jobs, CancelledBucket) + CountBucket(jobs, NotFoundBucket)
            == |jobs|
  {
    if |jobs| > 0 {
      CountsPartitionBatch(jobs[1..]);
    }
  }

  /** A batch with no job in progress has nothing queued or running. */
  lemma {:induction false} FinishedBatchHasNoActiveBuckets(jobs: seq<Js>)
    requires !AnyInProgress(jobs)
    ensures CountBucket(jobs, QueuedBucket) == 0 && CountBucket(jobs, RunningBucket) == 0
  {
    if |jobs| > 0 {
      FinishedBatchHasNoActiveBuckets(jobs[1..]);
    }
  }

  /** Removing the element at position i leaves the multiset without one copy of it. */
  lemma MultisetRemove(c: seq<Js>, i: nat)
    requires i < |c|
    ensures multiset(c[..i] + c[i + 1..]) == multiset(c) - multiset{c[i]}
  {
    assert c == c[..i] + [c[i]] + c[i + 1..];
    assert multiset(c) == multiset(c[..i]) + multiset{c[i]} + multiset(c[i + 1..]);
  }

  /** Removing the job at position i removes its contribution to its bucket's count. */
  lemma CountBucketRemove(c: seq<Js>, i: nat, b: Bucket)
    requires i < |c|
    ensures CountBucket(c, b) == CountBucket(c[..i] + c[i + 1..], b) + (if JobBucket(c[i]) == b then 1 else 0)
  {
    assert c == c[..i] + c[i..];
    CountBucketAppend(c[..i], c[i..], b);
    assert c[i..][1..] == c[i + 1..];
    CountBucketAppend(c[..i], c[i + 1..], b);
  }

  /** The counts, hence the summary, do not depend on the order of the jobs. */
  lemma {:induction false} CountBucketPermutation(a: seq<Js>, c: seq<Js>, b: Bucket)
    requires multiset(a) == multiset(c)
    ensures CountBucket(a, b) == CountBucket(c, b)
    decreases |a|
  {
    if |a| > 0 {
      var i := IndexOfJob(c, a[0]);
      var rest := c[..i] + c[i + 1..];
      MultisetRemove(c, i);
      MultisetTail(a);
      CountBucketPermutation(a[1..], rest, b);
      CountBucketRemove(c, i, b);
    } else {
      assert c == [];
    }
  }

  /** A position at which a job of the multiset occurs. */
  lemma IndexOfJob(c: seq<Js>, x: Js) returns (i: nat)
    requires x in multiset(c)
    ensures i < |c| && c[i] == x
  {
    assert x in c;
    i :| 0 <= i < |c| && c[i] == x;
  }

  lemma MultisetTail(a: seq<Js>)
    requires |a| > 0
    ensures multiset(a[1..]) == multiset(a) - multiset{a[0]}
  {
    assert a == [a[0]] + a[1..];
  }

  lemma {:induction false} NonEmptyBucketsPermutation(a: seq<Js>, c: seq<Js>, order: seq<Bucket>)
    requires multiset(a) == multiset(c)
    ensures NonEmptyBuckets(a, order) == NonEmptyBuckets(c, order)
    decreases |order|
  {
    if |order| > 0 {
      CountBucketPermutation(a, c, order[0]);
      NonEmptyBucketsPermutation(a, c, order[1..]);
    }
  }

  lemma {:induction false} PhrasesPermutation(a: seq<Js>, c: seq<Js>, buckets: seq<Bucket>)
    requires multiset(a) == multiset(c)
    ensures Phrases(a, buckets) == Phrases(c, buckets)
    decreases |buckets|
  {
    if |buckets| > 0 {
      CountBucketPermutation(a, c, buckets[0]);
      PhrasesPermutation(a, c, buckets[1..]);
    }
  }

  lemma AnyInProgressPermutation(a: seq<Js>, c: seq<Js>)
    requires multiset(a) == multiset(c)
    ensures AnyInProgress(a) == AnyInProgress(c)
  {
    if AnyInProgress(a) {
      var k :| 0 <= k < |a| && !IsTerminalStatus(Get(a[k], "status"));
      assert a[k] in multiset(c);
    }
    if AnyInProgress(c) {
      var k :| 0 <= k < |c| && !IsTerminalStatus(Get(c[k], "status"));
      assert c[k] in multiset(a);
    }
  }

  lemma FinishedTailPermutation(a: seq<Js>, c: seq<Js>)
    requires multiset(a) == multiset(c)
    ensures FinishedTail(a) == FinishedTail(c)
  {
    NonEmptyBucketsPermutation(a, c, FinishedOrder);
    var present := NonEmptyBuckets(a, FinishedOrder);
    if |present| == 1 {
      CountBucketPermutation(a, c, present[0]);
    } else {
      PhrasesPermutation(a, c, present);
    }
  }

  /** createCombinedJobState summarises counts only: reordering the jobs of a batch does not
      change the summary. */
  lemma CombinedJobStatePermutation(a: seq<Js>, c: seq<Js>)
    requires multiset(a) == multiset(c)
    ensures CreateCombinedJobState(Some(a)) == CreateCombinedJobState(Some(c))
  {
    assert |a| == |multiset(a)| == |multiset(c)| == |c|;
    AnyInProgressPermutation(a, c);
    NonEmptyBucketsPermutation(a, c, InProgressOrder);
    PhrasesPermutation(a, c, NonEmptyBuckets(a, InProgressOrder));
    assert InProgressCounts(a) == InProgressCounts(c);
    FinishedTailPermutation(a, c);
  }

  /** The summary is framed as "in progress" exactly when some job is not terminal. */
  lemma CombinedJobStateFraming(jobs: seq<Js>)
    requires jobs != []
    ensures var r := CreateCombinedJobState(Some(jobs));
            r.SummarySpan? &&
            ((|r.text| >= |InProgressPrefix| && r.text[..|InProgressPrefix|] == InProgressPrefix)
              <==> AnyInProgress(jobs))
  {
    if AnyInProgress(jobs) {
      InProgressSummary(jobs);
      InProgressTextPrefix(InProgressCounts(jobs));
    } else {
      FinishedSummary(jobs);
      FinishedTextPrefix(FinishedTail(jobs));
    }
  }

  lemma InProgressTextPrefix(tail: string)
    ensures (InProgressPrefix + tail)[..|InProgressPrefix|] == InProgressPrefix
  {
  }

  /** A finished summary never reads as an in-progress one: the two prefixes differ at index 10. */
  lemma FinishedTextPrefix(tail: string)
    ensures var t := FinishedPrefix + tail;
            !(|t| >= |InProgressPrefix| && t[..|InProgressPrefix|] == InProgressPrefix)
  {
    var t := FinishedPrefix + tail;
    assert t[10] == FinishedPrefix[10] == 'f' && InProgressPrefix[10] == 'i';
    if |t| >= |InProgressPrefix| {
      assert t[..|InProgressPrefix|][10] == 'f';
    }
  }

  lemma InProgressSummary(jobs: seq<Js>)
    requires jobs != [] && AnyInProgress(jobs)
    ensures CreateCombinedJobState(Some(jobs)).text == InProgressPrefix + InProgressCounts(jobs)
  {
  }

  /** A finished batch whose jobs all fall in one bucket is summarised by that bucket's outcome
      and count, e.g. "batch job finished with success: 3 successes". */
  lemma UniformFinishedBatch(jobs: seq<Js>, b: Bucket)
    requires jobs != []
    requires forall k :: 0 <= k < |jobs| ==> IsTerminalStatus(Get(jobs[k], "status"))
    requires forall k :: 0 <= k < |jobs| ==> JobBucket(jobs[k]) == b
    ensures CreateCombinedJobState(Some(jobs)).text ==
            FinishedPrefix + (" with " + BatchOutcome(b) + ": " + BucketPhrase(|jobs|, b))
  {
    ParseStatusTerminalBucket(jobs[0]);
    UniformFinishedTail(jobs, b);
    AllTerminalNotInProgress(jobs);
    FinishedSummary(jobs);
  }

  /** When every job of a non-empty batch falls in one finished bucket, the finished summary
      names that bucket's outcome and counts the whole batch. */
  lemma UniformFinishedTail(jobs: seq<Js>, b: Bucket)
    requires jobs != [] && b in FinishedOrder
    requires forall k :: 0 <= k < |jobs| ==> JobBucket(jobs[k]) == b
    ensures FinishedTail(jobs) == " with " + BatchOutcome(b) + ": " + BucketPhrase(|jobs|, b)
  {
    UniformCount(jobs, b);
    NonEmptyBucketsSingle(jobs, FinishedOrder, b);
    FinishedTailSingle(jobs, b);
  }

  lemma FinishedSummary(jobs: seq<Js>)
    requires jobs != [] && !AnyInProgress(jobs)
    ensures CreateCombinedJobState(Some(jobs)).text == FinishedPrefix + FinishedTail(jobs)
  {
  }

  lemma AllTerminalNotInProgress(jobs: seq<Js>)
    requires forall k :: 0 <= k < |jobs| ==> IsTerminalStatus(Get(jobs[k], "status"))
    ensures !AnyInProgress(jobs)
  {
  }

  lemma FinishedTailSingle(jobs: seq<Js>, b: Bucket)
    requires NonEmptyBuckets(jobs, FinishedOrder) == [b]
    ensures FinishedTail(jobs) == " with " + BatchOutcome(b) + ": " + BucketPhrase(CountBucket(jobs, b), b)
  {
  }

  lemma ParseStatusTerminalBucket(job: Js)
    requires IsTerminalStatus(Get(job, "status"))
    ensures JobBucket(job) in FinishedOrder
  {
  }

  lemma {:induction false} UniformCount(jobs: seq<Js>, b: Bucket)
    requires forall k :: 0 <= k < |jobs| ==> JobBucket(jobs[k]) == b
    ensures CountBucket(jobs, b) == |jobs|
    ensures forall b' :: b' != b ==> CountBucket(jobs, b') == 0
  {
    if |jobs| > 0 {
      assert forall k :: 0 <= k < |jobs[1..]| ==> jobs[1..][k] == jobs[k + 1];
      UniformCount(jobs[1..], b);
    }
  }

  /** When no bucket of order holds a job, no bucket is listed. */
  lemma {:induction false} NonEmptyBucketsNone(jobs: seq<Js>, order: seq<Bucket>)
    requires forall k :: 0 <= k < |order| ==> CountBucket(jobs, order[k]) == 0
    ensures NonEmptyBuckets(jobs, order) == []
    decreases |order|
  {
    if |order| > 0 {
      NonEmptyBucketsNone(jobs, order[1..]);
    }
  }

  /** When, of a duplicate-free order, only bucket b holds jobs, the non-empty buckets are b alone. */
  lemma {:induction false} NonEmptyBucketsSingle(jobs: seq<Js>, order: seq<Bucket>, b: Bucket)
    requires forall i, j :: 0 <= i < j < |order| ==> order[i] != order[j]
    requires b in order && CountBucket(jobs, b) > 0
    requires forall b' :: b' != b ==> CountBucket(jobs, b') == 0
    ensures NonEmptyBuckets(jobs, order) == [b]
    decreases |order|
  {
    if order[0] == b {
      forall k | 0 <= k < |order[1..]| ensures CountBucket(jobs, order[1..][k]) == 0 {
        assert order[0] != order[k + 1];
      }
      NonEmptyBucketsNone(jobs, order[1..]);
    } else {
      NonEmptyBucketsSingle(jobs, order[1..], b);
    }
  }

  /** Listing a concatenation of bucket orders lists each part in turn. */
  lemma {:induction false} NonEmptyBucketsAppend(jobs: seq<Js>, a: seq<Bucket>, b: seq<Bucket>)
    ensures NonEmptyBuckets(jobs, a + b) == NonEmptyBuckets(jobs, a) + NonEmptyBuckets(jobs, b)
    decreases |a|
  {
    if |a| == 0 {
      assert a + b == b;
    } else {
      assert (a + b)[0] == a[0] && (a + b)[1..] == a[1..] + b;
      NonEmptyBucketsAppend(jobs, a[1..], b);
      var head := if CountBucket(jobs, a[0]) > 0 then [a[0]] else [];
      ConcatAssoc(head, NonEmptyBuckets(jobs, a[1..]), NonEmptyBuckets(jobs, b));
    }
  }

  /** A single bucket is listed exactly when it holds a job. */
  lemma NonEmptyBucketsOne(jobs: seq<Js>, b: Bucket)
    ensures NonEmptyBuckets(jobs, [b]) == if CountBucket(jobs, b) > 0 then [b] else []
  {
    assert [b][1..] == [];
  }

  /** The phrases of a concatenation of buckets are the phrases of each part in turn. */
  lemma {:induction false} PhrasesAppend(jobs: seq<Js>, a: seq<Bucket>, b: seq<Bucket>)
    ensures Phrases(jobs, a + b) == Phrases(jobs, a) + Phrases(jobs, b)
    decreases |a|
  {
    if |a| == 0 {
      assert a + b == b;
    } else {
      assert (a + b)[0] == a[0] && (a + b)[1..] == a[1..] + b;
      PhrasesAppend(jobs, a[1..], b);
      ConcatAssoc([BucketPhrase(CountBucket(jobs, a[0]), a[0])], Phrases(jobs, a[1..]), Phrases(jobs, b));
    }
  }

  /** The phrase of a bucket holding n jobs, listed only when n is positive. */
  function Listed(n: nat, b: Bucket): (r: seq<string>)
    ensures |r| <= 1
  {
    if n > 0 then [BucketPhrase(n, b)] else []
  }

  /** The batch summary written out from whether some job is still in progress and the six
      bucket counts (queued, running, success, failed, cancelled, not found): the positive
      counts as "N label" phrases in that fixed order, joined by ", ". A finished batch lists
      only the outcome buckets, and one whose jobs all fall in one bucket names that
      bucket's outcome instead. */
  function SummaryOfCounts(inProgress: bool, q: nat, r: nat, s: nat, f: nat, c: nat, n: nat): string {
    if inProgress then
      InProgressPrefix +
        Join(Listed(q, QueuedBucket) + Listed(r, RunningBucket) + Listed(s, SuccessBucket)
             + Listed(f, FailedBucket) + Listed(c, CancelledBucket) + Listed(n, NotFoundBucket), ", ")
    else
      var ends := Listed(s, SuccessBucket) + Listed(f, FailedBucket) + Listed(c, CancelledBucket)
                  + Listed(n, NotFoundBucket);
      if |ends| == 1 then
        FinishedPrefix + (" with " + (if s > 0 then "success" else if c > 0 then "cancellation" else "error")
                          + ": " + ends[0])
      else
        FinishedPrefix + (": " + Join(ends, ", "))
  }

  /** The listed phrases of one bucket. */
  lemma ListedOne(jobs: seq<Js>, b: Bucket)
    ensures Phrases(jobs, NonEmptyBuckets(jobs, [b])) == Listed(CountBucket(jobs, b), b)
  {
    NonEmptyBucketsOne(jobs, b);
  }

  /** One more bucket at the end of an order adds its phrase, if any, at the end. */
  lemma ListedSnoc(jobs: seq<Js>, order: seq<Bucket>, b: Bucket)
    ensures Phrases(jobs, NonEmptyBuckets(jobs, order + [b])) ==
            Phrases(jobs, NonEmptyBuckets(jobs, order)) + Listed(CountBucket(jobs, b), b)
  {
    NonEmptyBucketsAppend(jobs, order, [b]);
    PhrasesAppend(jobs, NonEmptyBuckets(jobs, order), NonEmptyBuckets(jobs, [b]));
    ListedOne(jobs, b);
  }

  /** The phrases of the non-empty buckets of an order. */
  function Listing(jobs: seq<Js>, order: seq<Bucket>): seq<string> {
    Phrases(jobs, NonEmptyBuckets(jobs, order))
  }

  /** The phrases of the finished buckets, bucket by bucket. */
  lemma FinishedListing(jobs: seq<Js>)
    ensures Listing(jobs, FinishedOrder) ==
            Listed(CountBucket(jobs, SuccessBucket), SuccessBucket) + Listed(CountBucket(jobs, FailedBucket), FailedBucket)
            + Listed(CountBucket(jobs, CancelledBucket), CancelledBucket)
            + Listed(CountBucket(jobs, NotFoundBucket), NotFoundBucket)
  {
    var o1 := [SuccessBucket];
    var o2 := o1 + [FailedBucket];
    var o3 := o2 + [CancelledBucket];
    assert o3 + [NotFoundBucket] == FinishedOrder;
    var ls, lf := Listed(CountBucket(jobs, SuccessBucket), SuccessBucket), Listed(CountBucket(jobs, FailedBucket), FailedBucket);
    var lc := Listed(CountBucket(jobs, CancelledBucket), CancelledBucket);
    ListedOne(jobs, SuccessBucket);
    ListedSnoc(jobs, o1, FailedBucket);
    assert Listing(jobs, o2) == ls + lf;
    ListedSnoc(jobs, o2, CancelledBucket);
    assert Listing(jobs, o3) == ls + lf + lc;
    ListedSnoc(jobs, o3, NotFoundBucket);
  }

  /** The phrases of all six buckets, bucket by bucket. */
  lemma InProgressListing(jobs: seq<Js>)
    ensures Listing(jobs, InProgressOrder) ==
            Listed(CountBucket(jobs, QueuedBucket), QueuedBucket) + Listed(CountBucket(jobs, RunningBucket), RunningBucket)
            + Listed(CountBucket(jobs, SuccessBucket), SuccessBucket) + Listed(CountBucket(jobs, FailedBucket), FailedBucket)
            + Listed(CountBucket(jobs, CancelledBucket), CancelledBucket)
            + Listed(CountBucket(jobs, NotFoundBucket), NotFoundBucket)
  {
    var o1 := [QueuedBucket];
    var o2 := o1 + [RunningBucket];
    var o3 := o2 + [SuccessBucket];
    var o4 := o3 + [FailedBucket];
    var o5 := o4 + [CancelledBucket];
    assert o5 + [NotFoundBucket] == InProgressOrder;
    ListedOne(jobs, QueuedBucket);
    ListedSnoc(jobs, o1, RunningBucket);
    ListedSnoc(jobs, o2, SuccessBucket);
    assert Listing(jobs, o3) ==
           Listed(CountBucket(jobs, QueuedBucket), QueuedBucket) + Listed(CountBucket(jobs, RunningBucket), RunningBucket)
           + Listed(CountBucket(jobs, SuccessBucket), SuccessBucket);
    ListedSnoc(jobs, o3, FailedBucket);
    ListedSnoc(jobs, o4, CancelledBucket);
    ListedSnoc(jobs, o5, NotFoundBucket);
  }

  /** The summary of every non-empty batch is the one written out from its counts: the batch
      is summarised by whether a job is in progress and how many jobs fall in each bucket. */
  lemma CombinedJobStateByCounts(jobs: seq<Js>)
    requires jobs != []
    ensures CreateCombinedJobState(Some(jobs)).text ==
            SummaryOfCounts(AnyInProgress(jobs), CountBucket(jobs, QueuedBucket), CountBucket(jobs, RunningBucket),
                            CountBucket(jobs, SuccessBucket), CountBucket(jobs, FailedBucket),
                            CountBucket(jobs, CancelledBucket), CountBucket(jobs, NotFoundBucket))
  {
    if AnyInProgress(jobs) {
      InProgressSummary(jobs);
      InProgressListing(jobs);
    } else {
      FinishedSummary(jobs);
      FinishedByCounts(jobs);
    }
  }

  lemma FinishedByCounts(jobs: seq<Js>)
    ensures FinishedPrefix + FinishedTail(jobs) ==
            SummaryOfCounts(false, CountBucket(jobs, QueuedBucket), CountBucket(jobs, RunningBucket),
                            CountBucket(jobs, SuccessBucket), CountBucket(jobs, FailedBucket),
                            CountBucket(jobs, CancelledBucket), CountBucket(jobs, NotFoundBucket))
  {
    FinishedListing(jobs);
    var present := NonEmptyBuckets(jobs, FinishedOrder);
    if |present| == 1 {
      FinishedTailSingle(jobs, present[0]);
      FinishedOutcome(jobs, present[0]);
    }
  }

  /** When one finished bucket alone holds jobs, the outcome named is that bucket's. */
  lemma FinishedOutcome(jobs: seq<Js>, b: Bucket)
    requires NonEmptyBuckets(jobs, FinishedOrder) == [b]
    ensures BatchOutcome(b) ==
            (if CountBucket(jobs, SuccessBucket) > 0 then "success"
             else if CountBucket(jobs, CancelledBucket) > 0 then "cancellation" else "error")
  {
    assert b in FinishedOrder;
    if CountBucket(jobs, SuccessBucket) > 0 {
      assert SuccessBucket in NonEmptyBuckets(jobs, FinishedOrder);
    } else if CountBucket(jobs, CancelledBucket) > 0 {
      assert CancelledBucket in NonEmptyBuckets(jobs, FinishedOrder);
    }
  }

  // ---------------------------------------------------------------------------------------
  // Indexing a job list

  /** The jobs of a list indexed by id (the last job listed under an id wins) and the ids
      of the jobs listed under each status. */
  datatype JobIndex = JobIndex(byId: map<string, JobState>, byStatus: map<Status, set<string>>)

  /** jobArrayToIndexedObject: the jobs are entered in list order. */
  function JobArrayToIndexedObject(jobs: seq<JobState>): (ix: JobIndex)
    ensures forall id :: id in ix.byId ==> ix.byId[id].jobId == id
    ensures forall st :: st in ix.byStatus ==> ix.byStatus[st] != {}
    decreases |jobs|
  {
    if |jobs| == 0 then JobIndex(map[], map[])
    else
      var j := jobs[|jobs| - 1];
      var ix := JobArrayToIndexedObject(jobs[..|jobs| - 1]);
      var ids := if j.status in ix.byStatus then ix.byStatus[j.status] else {};
      JobIndex(ix.byId[j.jobId := j], ix.byStatus[j.status := ids + {j.jobId}])
  }

  /** Every listed job's id is indexed, and so is its status, with the id among that
      status's ids. */
  lemma {:induction false} JobIndexCovers(jobs: seq<JobState>, k: nat)
    requires k < |jobs|
    ensures var ix := JobArrayToIndexedObject(jobs);
            jobs[k].jobId in ix.byId && jobs[k].status in ix.byStatus && jobs[k].jobId in ix.byStatus[jobs[k].status]
    decreases |jobs|
  {
    var n := |jobs| - 1;
    if k < n {
      JobIndexCovers(jobs[..n], k);
      assert jobs[..n][k] == jobs[k];
    }
  }

  /** An indexed id is indexed to the last job listed under it. */
  lemma {:induction false} JobIndexById(jobs: seq<JobState>, id: string)
    requires id in JobArrayToIndexedObject(jobs).byId
    ensures exists k :: 0 <= k < |jobs| && jobs[k] == JobArrayToIndexedObject(jobs).byId[id]
                        && forall m :: k < m < |jobs| ==> jobs[m].jobId != id
    decreases |jobs|
  {
    var n := |jobs| - 1;
    var init := jobs[..n];
    if id != jobs[n].jobId {
      JobIndexById(init, id);
      var k :| 0 <= k < |init| && init[k] == JobArrayToIndexedObject(init).byId[id]
                && forall m :: k < m < |init| ==> init[m].jobId != id;
      assert jobs[k] == init[k];
      assert forall m :: k < m < |jobs| ==> jobs[m].jobId != id by {
        forall m | k < m < |jobs| ensures jobs[m].jobId != id {
          if m < n {
            assert init[m] == jobs[m];
          }
        }
      }
    } else {
      assert jobs[n] == JobArrayToIndexedObject(jobs).byId[id];
    }
  }

  /** Every id indexed under a status belongs to a listed job with that status. */
  lemma {:induction false} JobIndexByStatus(jobs: seq<JobState>, st: Status, id: string)
    requires st in JobArrayToIndexedObject(jobs).byStatus && id in JobArrayToIndexedObject(jobs).byStatus[st]
    ensures exists k :: 0 <= k < |jobs| && jobs[k].status == st && jobs[k].jobId == id
    decreases |jobs|
  {
    var n := |jobs| - 1;
    var init := jobs[..n];
    if st == jobs[n].status && id == jobs[n].jobId {
      assert jobs[n].status == st && jobs[n].jobId == id;
    } else {
      JobIndexByStatus(init, st, id);
      var k :| 0 <= k < |init| && init[k].status == st && init[k].jobId == id;
      assert jobs[k] == init[k];
    }
  }

  /** The statuses indexed are exactly the statuses of the listed jobs. */
  lemma JobIndexStatuses(jobs: seq<JobState>, st: Status)
    ensures st in JobArrayToIndexedObject(jobs).byStatus <==> exists k :: 0 <= k < |jobs| && jobs[k].status == st
  {
    var ix := JobArrayToIndexedObject(jobs);
    if st in ix.byStatus {
      var id :| id in ix.byStatus[st];
      JobIndexByStatus(jobs, st, id);
    }
    if exists k :: 0 <= k < |jobs| && jobs[k].status == st {
      var k :| 0 <= k < |jobs| && jobs[k].status == st;
      JobIndexCovers(jobs, k);
    }
  }
}
