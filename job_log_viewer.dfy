/** The job log viewer (util/jobLogViewer): a per-job state machine that shows a job's
    status lines and its log, reacting to the messages that arrive on the job's channel
    (status, logs, log-deleted, does-not-exist) and to the log-poll timer, and sending
    requests for status and logs on the bus.

    The transitions are functions on a snapshot of the viewer (ViewerState); the Viewer
    class keeps the same state in fields that its methods update in place, and each
    method is proved to move its fields exactly as the function says. */
module JobLogViewer {
  import opened Wrappers
  import opened JsValue
  import Jobs

  const CssBaseClass := "kb-log"
  const LineClass := CssBaseClass + "__line_text"
  const ErrorLineClass := CssBaseClass + "__line_text--error"
  const QueuedMessage := "Job is queued; logs will be available when the job is running."
  const NoEntriesMessage := "No log entries to show."
  const NoNodeError := "Requires a node to start"
  const NoJobIdError := "Requires a job id to start"

  /** The state machine's mode. */
  datatype Mode = New | Queued | Running | Completed | Error | Terminated | DoesNotExist

  /** The mode name the state machine reports. */
  function ModeName(m: Mode): string {
    match m
    case New => "new"
    case Queued => "queued"
    case Running => "running"
    case Completed => "completed"
    case Error => "error"
    case Terminated => "terminated"
    case DoesNotExist => "does_not_exist"
  }

  /** Terminal modes have no outgoing transitions. */
  predicate IsTerminalMode(m: Mode) {
    m == Completed || m == Error || m == Terminated || m == DoesNotExist
  }

  /** Terminal modes whose job has a log to fetch. */
  predicate HasFinalLog(m: Mode) {
    m == Completed || m == Error || m == Terminated
  }

  /** The mode a job status puts the viewer in: the queue-phase statuses collapse to queued. */
  function ModeOf(st: Jobs.Status): (m: Mode)
    ensures m != New
    ensures IsTerminalMode(m) <==> Jobs.IsTerminal(st)
  {
    match st
    case Created => Queued
    case Estimating => Queued
    case Queued => Queued
    case Running => Running
    case Completed => Completed
    case Error => Error
    case Terminated => Terminated
    case DoesNotExist => DoesNotExist
  }

  /** Outbound bus messages: request-job-status {jobId}, request-job-log {jobId, options:
      {first_line}} and request-latest-job-log {jobId, options: {}}. */
  datatype Request =
    | RequestJobStatus(jobId: string)
    | RequestJobLog(jobId: string, firstLine: nat)
    | RequestLatestJobLog(jobId: string)

  /** One line of a job-logs message; is_error is a number, an error line when non-zero. */
  datatype LogLine = LogLine(isError: int, line: string)

  /** A rendered log line: its CSS class and its text. */
  datatype RenderedLine = RenderedLine(cssClass: string, text: string)

  /** The log panel: nothing at all (no log-lines element), a fixed message, or the lines. */
  datatype LogPanel = Blank | Message(text: string) | Lines(lines: seq<RenderedLine>)

  /** Renders the lines of a logs message in order, error lines with the error class. */
  function RenderLogLines(lines: seq<LogLine>): (r: seq<RenderedLine>)
    ensures |r| == |lines|
    ensures forall k :: 0 <= k < |lines| ==> r[k].text == lines[k].line
    ensures forall k :: 0 <= k < |lines| ==>
              r[k].cssClass == (if lines[k].isError != 0 then ErrorLineClass else LineClass)
  {
    if |lines| == 0 then []
    else
      var first := RenderedLine(if lines[0].isError != 0 then ErrorLineClass else LineClass, lines[0].line);
      [first] + RenderLogLines(lines[1..])
  }

  /** What a logs response shows: nothing for an empty response, otherwise its lines. */
  function LogPanelOf(lines: seq<LogLine>): (p: LogPanel)
    ensures p == Blank <==> |lines| == 0
    ensures p.Lines? ==>
              |p.lines| == |lines| && forall k :: 0 <= k < |lines| ==> p.lines[k].text == lines[k].line
    ensures p.Blank? || p.Lines?
  {
    if |lines| == 0 then Blank else Lines(RenderLogLines(lines))
  }

  /** A snapshot of the viewer: the mode, the three flags the viewer reports
      (jobStatusListening, jobLogWaiting, jobLogLooping), whether it is started and attached,
      its job, its display (status lines, error line, log panel) and the requests it has sent
      since it was started. */
  datatype ViewerState = ViewerState(
    mode: Mode,
    listening: bool,
    waiting: bool,
    looping: bool,
    attached: bool,
    jobId: string,
    showHistory: bool,
    statusLines: seq<string>,
    errorLine: string,
    panel: LogPanel,
    sent: seq<Request>)

  /** The number of request-job-log messages among sent. */
  function FullLogRequests(sent: seq<Request>): (n: nat)
    ensures n <= |sent|
    ensures n == 0 <==> forall k :: 0 <= k < |sent| ==> !sent[k].RequestJobLog?
    ensures n == |sent| <==> forall k :: 0 <= k < |sent| ==> sent[k].RequestJobLog?
  {
    if |sent| == 0 then 0
    else
      assert forall k :: 1 <= k < |sent| ==> sent[k] == sent[1..][k - 1];
      (if sent[0].RequestJobLog? then 1 else 0) + FullLogRequests(sent[1..])
  }

  /** The number of request-latest-job-log messages among sent. */
  function LatestLogRequests(sent: seq<Request>): (n: nat)
    ensures n <= |sent|
    ensures n == 0 <==> forall k :: 0 <= k < |sent| ==> !sent[k].RequestLatestJobLog?
    ensures n == |sent| <==> forall k :: 0 <= k < |sent| ==> sent[k].RequestLatestJobLog?
  {
    if |sent| == 0 then 0
    else
      assert forall k :: 1 <= k < |sent| ==> sent[k] == sent[1..][k - 1];
      (if sent[0].RequestLatestJobLog? then 1 else 0) + LatestLogRequests(sent[1..])
  }

  lemma {:induction false} FullLogRequestsAppend(sent: seq<Request>, q: Request)
    ensures FullLogRequests(sent + [q]) == FullLogRequests(sent) + (if q.RequestJobLog? then 1 else 0)
    decreases |sent|
  {
    if |sent| == 0 {
      assert sent + [q] == [q];
    } else {
      FullLogRequestsAppend(sent[1..], q);
      assert (sent + [q])[1..] == sent[1..] + [q];
    }
  }

  lemma {:induction false} LatestLogRequestsAppend(sent: seq<Request>, q: Request)
    ensures LatestLogRequests(sent + [q]) == LatestLogRequests(sent) + (if q.RequestLatestJobLog? then 1 else 0)
    decreases |sent|
  {
    if |sent| == 0 {
      assert sent + [q] == [q];
    } else {
      LatestLogRequestsAppend(sent[1..], q);
      assert (sent + [q])[1..] == sent[1..] + [q];
    }
  }

  /** The invariant the viewer keeps:
      - a terminal viewer listens and loops no more, and only a running viewer loops;
      - a detached viewer has no flag set;
      - a full-log request has been sent once for a finished job with a log, and never otherwise. */
  ghost predicate Inv(s: ViewerState) {
    && (IsTerminalMode(s.mode) ==> !s.listening && !s.looping)
    && (s.looping ==> s.mode == Running)
    && (!s.attached ==> !s.listening && !s.waiting && !s.looping)
    && FullLogRequests(s.sent) == (if HasFinalLog(s.mode) then 1 else 0)
  }

  /** A viewer made but not started. */
  function Initial(showHistory: bool): (s: ViewerState)
    ensures Inv(s) && !s.attached && s.mode == New && s.sent == []
  {
    ViewerState(New, false, false, false, false, "", showHistory, [], "", Blank, [])
  }

  /** start's argument checks: a node first, then a job id. */
  function StartCheck(hasNode: bool, jobId: Option<string>): (r: Outcome)
    ensures r.Pass? <==> hasNode && jobId.Some?
    ensures !hasNode ==> r == Fail(NoNodeError)
    ensures hasNode && jobId.None? ==> r == Fail(NoJobIdError)
  {
    if !hasNode then Fail(NoNodeError)
    else if jobId.None? then Fail(NoJobIdError)
    else Pass
  }

  /** The error line of a record: the error string of an error record that carries an error,
      otherwise nothing. */
  function ErrorLineOf(j: Jobs.JobState): string {
    if j.status == Jobs.Error && j.error.Some? then Jobs.ErrorString(j.error.value) else ""
  }

  /** A job-status message carrying the record v. A detached or terminal viewer, or an
      invalid record, changes nothing. Otherwise the status lines are redrawn and:
      - a queue-phase status shows the queued message;
      - running starts the log loop and requests the latest log unless a request is out;
      - completed, error and terminated stop listening and looping and request the whole
        log from line 0;
      - does_not_exist stops everything and empties the log panel. */
  function OnStatus(s: ViewerState, v: Js, fmt: Jobs.Formatter): (r: ViewerState)
    ensures r.attached == s.attached && r.jobId == s.jobId && r.showHistory == s.showHistory
    ensures !s.attached || IsTerminalMode(s.mode) || !Jobs.IsValidJobStateObject(v) ==> r == s
    ensures s.attached && !IsTerminalMode(s.mode) && Jobs.IsValidJobStateObject(v) ==>
              var m := ModeOf(Jobs.ParseJobState(v).value.status);
              && r.mode == m
              && r.statusLines == Jobs.CreateJobStatusLines(v, s.showHistory, fmt)
  {
    if !s.attached || IsTerminalMode(s.mode) then s
    else
      match Jobs.ParseJobState(v)
      case None => s
      case Some(j) => ApplyStatus(s, ModeOf(j.status), ErrorLineOf(j), Jobs.CreateJobStatusLines(v, s.showHistory, fmt))
  }

  /** The transition to mode m (not new) for a valid record whose status lines are lines
      and whose error line is err. */
  function ApplyStatus(s: ViewerState, m: Mode, err: string, lines: seq<string>): (r: ViewerState)
    requires m != New
    ensures r.attached == s.attached && r.jobId == s.jobId && r.showHistory == s.showHistory
    ensures r.mode == m && r.statusLines == lines && r.errorLine == err
  {
    var shown := s.(mode := m, statusLines := lines, errorLine := err);
    if m == Queued then
      shown.(looping := false, panel := Message(QueuedMessage))
    else if m == Running then
      if s.waiting then shown.(looping := true)
      else shown.(looping := true, waiting := true, sent := s.sent + [RequestLatestJobLog(s.jobId)])
    else if m == DoesNotExist then
      shown.(listening := false, waiting := false, looping := false, panel := Blank)
    else
      shown.(listening := false, looping := false, waiting := true, sent := s.sent + [RequestJobLog(s.jobId, 0)])
  }

  /** A job-logs message: the panel shows exactly this response's lines and the viewer
      stops waiting. */
  function OnLogs(s: ViewerState, lines: seq<LogLine>): (r: ViewerState)
    ensures r.mode == s.mode && r.sent == s.sent
    ensures !s.attached ==> r == s
    ensures s.attached ==>
              !r.waiting && r.panel == LogPanelOf(lines) && r.listening == s.listening && r.looping == s.looping && r.statusLines == s.statusLines
  {
    if !s.attached then s else s.(waiting := false, panel := LogPanelOf(lines))
  }

  /** A job-log-deleted message: the panel shows that there are no entries; a terminal
      viewer also clears its flags, a running one keeps looping (and waiting). */
  function OnLogDeleted(s: ViewerState): (r: ViewerState)
    ensures r.mode == s.mode && r.sent == s.sent
  {
    if !s.attached then s
    else if IsTerminalMode(s.mode) then
      s.(panel := Message(NoEntriesMessage), listening := false, waiting := false, looping := false)
    else s.(panel := Message(NoEntriesMessage))
  }

  /** A job-does-not-exist message: the not-found status line, an empty log panel, and
      nothing more to listen or wait for. A terminal viewer ignores it. */
  function OnDoesNotExist(s: ViewerState): (r: ViewerState)
    ensures r.sent == s.sent
    ensures !s.attached || IsTerminalMode(s.mode) ==> r == s
    ensures s.attached && !IsTerminalMode(s.mode) ==>
              r.mode == DoesNotExist && r.statusLines == [Jobs.NotFoundLine] && r.panel == Blank &&
              !r.listening && !r.waiting && !r.looping
  {
    if !s.attached || IsTerminalMode(s.mode) then s
    else
      s.(mode := DoesNotExist, statusLines := [Jobs.NotFoundLine], errorLine := "", panel := Blank,
         listening := false, waiting := false, looping := false)
  }

  /** The log-poll timer: a running, looping viewer with no request out asks for the
      latest log. */
  function OnTick(s: ViewerState): (r: ViewerState)
    ensures r.mode == s.mode
    ensures s.attached && s.mode == Running && s.looping && !s.waiting ==>
            r == s.(waiting := true, sent := s.sent + [RequestLatestJobLog(s.jobId)])
    ensures !(s.attached && s.mode == Running && s.looping && !s.waiting) ==> r == s
  {
    if s.attached && s.mode == Running && s.looping && !s.waiting then
      s.(waiting := true, sent := s.sent + [RequestLatestJobLog(s.jobId)])
    else s
  }

  /** stop: unsubscribe and cancel the timer; nothing further is requested. */
  function OnStop(s: ViewerState): (r: ViewerState)
    ensures !r.attached && !r.listening && !r.waiting && !r.looping
    ensures r.mode == s.mode && r.sent == s.sent && r.panel == s.panel && r.statusLines == s.statusLines
  {
    s.(attached := false, listening := false, waiting := false, looping := false)
  }

  /** detach: stop, and clear the display. */
  function OnDetach(s: ViewerState): (r: ViewerState)
    ensures !r.attached && !r.listening && !r.waiting && !r.looping
    ensures r.mode == s.mode && r.sent == s.sent
    ensures r.panel == Blank && r.statusLines == [] && r.errorLine == ""
  {
    OnStop(s).(statusLines := [], errorLine := "", panel := Blank)
  }

  /** A viewer just started on a job: new, listening for the job's status and showing the
      unknown-state line. */
  function Begun(jobId: string, showHistory: bool): (s: ViewerState)
    ensures Inv(s) && s.attached && s.mode == New && s.sent == []
  {
    ViewerState(New, true, false, false, true, jobId, showHistory, [Jobs.UnknownLine], "", Blank, [])
  }

  /** A started viewer: a valid initial record is fed in at once, otherwise the status is
      requested. */
  function Started(jobId: string, jobState: Option<Js>, showHistory: bool, fmt: Jobs.Formatter): (r: ViewerState)
    ensures r.attached && r.jobId == jobId
    ensures jobState.Some? && Jobs.IsValidJobStateObject(jobState.value) ==>
              r.mode == ModeOf(Jobs.ParseJobState(jobState.value).value.status) &&
              r.statusLines == Jobs.CreateJobStatusLines(jobState.value, showHistory, fmt)
    ensures jobState.None? || !Jobs.IsValidJobStateObject(jobState.value) ==>
              r.mode == New && r.sent == [RequestJobStatus(jobId)]
  {
    if jobState.Some? && Jobs.IsValidJobStateObject(jobState.value) then OnStatus(Begun(jobId, showHistory), jobState.value, fmt)
    else Begun(jobId, showHistory).(sent := [RequestJobStatus(jobId)])
  }

  // ---------------------------------------------------------------------------------------
  // Properties of the transitions

  /** Every transition keeps the invariant. */
  lemma OnStatusInv(s: ViewerState, v: Js, fmt: Jobs.Formatter)
    requires Inv(s)
    ensures Inv(OnStatus(s, v, fmt))
  {
    if s.attached && !IsTerminalMode(s.mode) && Jobs.ParseJobState(v).Some? {
      var j := Jobs.ParseJobState(v).value;
      ApplyStatusInv(s, ModeOf(j.status), ErrorLineOf(j), Jobs.CreateJobStatusLines(v, s.showHistory, fmt));
    }
  }

  lemma ApplyStatusInv(s: ViewerState, m: Mode, err: string, lines: seq<string>)
    requires Inv(s) && s.attached && !IsTerminalMode(s.mode) && m != New
    ensures Inv(ApplyStatus(s, m, err, lines))
  {
    FullLogRequestsAppend(s.sent, RequestLatestJobLog(s.jobId));
    FullLogRequestsAppend(s.sent, RequestJobLog(s.jobId, 0));
  }

  /** What each mode does besides redrawing the status: a queue-phase status shows the queued
      message and stops the loop; running loops and asks for the latest log unless a request
      is out; a finished job with a log stops listening and looping and asks for the whole
      log from line 0; does_not_exist empties the log panel and clears every flag. */
  lemma ApplyStatusEffects(s: ViewerState, m: Mode, err: string, lines: seq<string>)
    requires m != New
    ensures var r := ApplyStatus(s, m, err, lines);
            && (m == Queued ==> r.panel == Message(QueuedMessage) && !r.looping && r.sent == s.sent)
            && (m == Running ==>
                  r.looping && r.waiting && r.panel == s.panel &&
                  r.sent == s.sent + (if s.waiting then [] else [RequestLatestJobLog(s.jobId)]))
            && (HasFinalLog(m) ==>
                  !r.listening && !r.looping && r.waiting && r.panel == s.panel &&
                  r.sent == s.sent + [RequestJobLog(s.jobId, 0)])
            && (m == DoesNotExist ==>
                  r.panel == Blank && !r.listening && !r.waiting && !r.looping && r.sent == s.sent)
  {
  }

  /** A valid status message to an attached viewer that is not yet terminal has the effect of
      its status's mode, as ApplyStatusEffects states it. */
  lemma OnStatusEffects(s: ViewerState, v: Js, fmt: Jobs.Formatter)
    requires s.attached && !IsTerminalMode(s.mode) && Jobs.IsValidJobStateObject(v)
    ensures var m := ModeOf(Jobs.ParseJobState(v).value.status);
            var r := OnStatus(s, v, fmt);
            && r.mode == m
            && (m == Queued ==> r.panel == Message(QueuedMessage) && !r.looping && r.sent == s.sent)
            && (m == Running ==>
                  r.looping && r.waiting &&
                  r.sent == s.sent + (if s.waiting then [] else [RequestLatestJobLog(s.jobId)]))
            && (HasFinalLog(m) ==>
                  !r.listening && !r.looping && r.waiting && r.sent == s.sent + [RequestJobLog(s.jobId, 0)])
            && (m == DoesNotExist ==>
                  r.panel == Blank && !r.listening && !r.waiting && !r.looping && r.sent == s.sent)
  {
    var j := Jobs.ParseJobState(v).value;
    ApplyStatusEffects(s, ModeOf(j.status), ErrorLineOf(j), Jobs.CreateJobStatusLines(v, s.showHistory, fmt));
  }

  lemma OnLogsInv(s: ViewerState, lines: seq<LogLine>)
    requires Inv(s)
    ensures Inv(OnLogs(s, lines))
  {
  }

  lemma OnLogDeletedInv(s: ViewerState)
    requires Inv(s)
    ensures Inv(OnLogDeleted(s))
  {
  }

  lemma OnDoesNotExistInv(s: ViewerState)
    requires Inv(s)
    ensures Inv(OnDoesNotExist(s))
  {
  }

  lemma OnTickInv(s: ViewerState)
    requires Inv(s)
    ensures Inv(OnTick(s))
  {
    FullLogRequestsAppend(s.sent, RequestLatestJobLog(s.jobId));
  }

  lemma StartedInv(jobId: string, jobState: Option<Js>, showHistory: bool, fmt: Jobs.Formatter)
    ensures Inv(Started(jobId, jobState, showHistory, fmt))
  {
    if jobState.Some? && Jobs.IsValidJobStateObject(jobState.value) {
      OnStatusInv(Begun(jobId, showHistory), jobState.value, fmt);
    } else {
      assert FullLogRequests([RequestJobStatus(jobId)]) == 0;
    }
  }

  /** Once terminal, the viewer ignores status messages, the timer and does-not-exist
      notices, and nothing it receives makes it send another request. */
  lemma TerminalIsFinal(s: ViewerState, v: Js, fmt: Jobs.Formatter, lines: seq<LogLine>)
    requires Inv(s) && IsTerminalMode(s.mode)
    ensures OnStatus(s, v, fmt) == s
    ensures OnTick(s) == s
    ensures OnDoesNotExist(s) == s
    ensures OnLogs(s, lines).sent == s.sent && OnLogDeleted(s).sent == s.sent
    ensures OnLogs(s, lines).mode == s.mode && OnLogDeleted(s).mode == s.mode
  {
  }

  /** An invalid record causes no transition and no change to the display. */
  lemma InvalidStatusIgnored(s: ViewerState, v: Js, fmt: Jobs.Formatter)
    requires !Jobs.IsValidJobStateObject(v)
    ensures OnStatus(s, v, fmt) == s
  {
  }

  /** The same status message twice in a row acts once: no duplicate request and no
      duplicate rendering. */
  lemma OnStatusIdempotent(s: ViewerState, v: Js, fmt: Jobs.Formatter)
    requires Inv(s)
    ensures OnStatus(OnStatus(s, v, fmt), v, fmt) == OnStatus(s, v, fmt)
  {
  }

  /** A valid record puts the viewer in the mode of its status: the queue-phase statuses
      give "queued", and every other status gives the mode of the same name. */
  lemma StatusSetsMode(s: ViewerState, v: Js, fmt: Jobs.Formatter)
    requires s.attached && !IsTerminalMode(s.mode) && Jobs.IsValidJobStateObject(v)
    ensures var st := Jobs.ParseJobState(v).value.status;
            var m := OnStatus(s, v, fmt).mode;
            m == ModeOf(st) &&
            (if Jobs.IsQueuePhase(st) then ModeName(m) == "queued" else ModeName(m) == Jobs.StatusName(st))
  {
  }

  /** A finished job with a log asks for the whole log exactly once, from line 0, and never
      for the latest lines. */
  lemma FinishedJobRequestsWholeLog(jobId: string, v: Js, showHistory: bool, fmt: Jobs.Formatter)
    requires Jobs.IsValidJobStateObject(v)
    requires HasFinalLog(ModeOf(Jobs.ParseJobState(v).value.status))
    ensures var s := Started(jobId, Some(v), showHistory, fmt);
            s.sent == [RequestJobLog(jobId, 0)] && LatestLogRequests(s.sent) == 0 &&
            !s.listening && !s.looping && s.waiting
  {
    var b := Begun(jobId, showHistory);
    assert Started(jobId, Some(v), showHistory, fmt) == OnStatus(b, v, fmt);
    OnStatusEffects(b, v, fmt);
    assert b.sent + [RequestJobLog(jobId, 0)] == [RequestJobLog(jobId, 0)];
    assert LatestLogRequests([RequestJobLog(jobId, 0)]) == 0;
  }

  /** Started without a (valid) record, the viewer is new, listens for status, neither
      waits nor loops, shows the unknown-state line and has sent one status request. */
  lemma StartWithoutRecord(jobId: string, jobState: Option<Js>, showHistory: bool, fmt: Jobs.Formatter)
    requires jobState.None? || !Jobs.IsValidJobStateObject(jobState.value)
    ensures var s := Started(jobId, jobState, showHistory, fmt);
            s.mode == New && s.listening && !s.waiting && !s.looping &&
            s.statusLines == [Jobs.UnknownLine] && s.errorLine == "" && s.sent == [RequestJobStatus(jobId)]
  {
  }

  /** Started without a record, a running status message starts the log loop: the viewer
      has then asked for the status and for the latest log, once each. */
  lemma RunningStatusRequestsLatestLog(jobId: string, v: Js, showHistory: bool, fmt: Jobs.Formatter)
    requires Jobs.IsValidJobStateObject(v) && Jobs.ParseJobState(v).value.status == Jobs.Running
    ensures var s := OnStatus(Started(jobId, None, showHistory, fmt), v, fmt);
            s.mode == Running && s.listening && s.looping && s.waiting &&
            s.sent == [RequestJobStatus(jobId), RequestLatestJobLog(jobId)]
  {
  }

  /** Started without a record, a finished status arriving as a message stops listening and
      looping and asks for the whole log from line 0, once and never for the latest lines. */
  lemma TerminalStatusRequestsWholeLog(jobId: string, v: Js, showHistory: bool, fmt: Jobs.Formatter)
    requires Jobs.IsValidJobStateObject(v)
    requires HasFinalLog(ModeOf(Jobs.ParseJobState(v).value.status))
    ensures var s := OnStatus(Started(jobId, None, showHistory, fmt), v, fmt);
            && Inv(s) && s.attached && HasFinalLog(s.mode) && s.waiting && !s.listening && !s.looping
            && s.sent == [RequestJobStatus(jobId), RequestJobLog(jobId, 0)]
            && FullLogRequests(s.sent) == 1 && LatestLogRequests(s.sent) == 0
  {
    var b := Started(jobId, None, showHistory, fmt);
    assert b.attached && b.mode == New && b.sent == [RequestJobStatus(jobId)] && !b.waiting;
    StartedInv(jobId, None, showHistory, fmt);
    OnStatusInv(b, v, fmt);
    OnStatusEffects(b, v, fmt);
    var s := OnStatus(b, v, fmt);
    assert b.sent + [RequestJobLog(jobId, 0)] == [RequestJobStatus(jobId), RequestJobLog(jobId, 0)];
    RequestCounts(jobId);
  }

  /** A finished job's log response, the answer to its one whole-log request, shows every line
      it carries, in order, and leaves nothing more to wait for or to send. */
  lemma FinishedLogShown(s: ViewerState, lines: seq<LogLine>)
    requires Inv(s) && s.attached && HasFinalLog(s.mode) && s.waiting
    ensures var t := OnLogs(s, lines);
            && Inv(t) && !t.waiting && !t.listening && !t.looping && t.sent == s.sent && t.mode == s.mode
            && (|lines| > 0 ==> t.panel == Lines(RenderLogLines(lines)))
            && OnTick(t) == t
  {
    OnLogsInv(s, lines);
  }

  lemma RequestCounts(jobId: string)
    ensures FullLogRequests([RequestJobStatus(jobId), RequestJobLog(jobId, 0)]) == 1
    ensures LatestLogRequests([RequestJobStatus(jobId), RequestJobLog(jobId, 0)]) == 0
  {
    var q := [RequestJobStatus(jobId), RequestJobLog(jobId, 0)];
    assert q[1..] == [RequestJobLog(jobId, 0)];
    assert q[1..][1..] == [];
  }

  /** A running job that is waiting for its latest log: each response shows exactly its own
      lines, and the next tick asks again, one request at a time. */
  lemma RunningLogCycle(s: ViewerState, lines: seq<LogLine>)
    requires Inv(s) && s.attached && s.mode == Running && s.looping && s.waiting
    ensures var after := OnLogs(s, lines);
            !after.waiting && after.panel == LogPanelOf(lines) &&
            OnTick(after).sent == s.sent + [RequestLatestJobLog(s.jobId)] && OnTick(after).waiting &&
            OnTick(OnTick(after)) == OnTick(after)
  {
  }

  /** log-deleted while running keeps all three flags as they were (listening, waiting,
      looping) and shows the no-entries message; in a terminal mode it clears all three. */
  lemma LogDeletedFlags(s: ViewerState)
    requires Inv(s) && s.attached
    ensures OnLogDeleted(s).panel == Message(NoEntriesMessage)
    ensures s.mode == Running ==>
              OnLogDeleted(s).listening == s.listening && OnLogDeleted(s).waiting == s.waiting &&
              OnLogDeleted(s).looping == s.looping
    ensures IsTerminalMode(s.mode) ==>
              !OnLogDeleted(s).listening && !OnLogDeleted(s).waiting && !OnLogDeleted(s).looping
  {
  }

  /** After stop, no message and no tick makes the viewer send anything. */
  lemma StoppedIsSilent(s: ViewerState, v: Js, fmt: Jobs.Formatter)
    ensures var t := OnStop(s);
            OnStatus(t, v, fmt) == t && OnTick(t) == t && OnDoesNotExist(t) == t &&
            OnLogDeleted(t) == t && !t.listening && !t.waiting && !t.looping
  {
  }

  // ---------------------------------------------------------------------------------------
  // The viewer object

  class Viewer {
    var mode: Mode
    var jobStatusListening: bool
    var jobLogWaiting: bool
    var jobLogLooping: bool
    var attached: bool
    var jobId: string
    const showHistory: bool
    const fmt: Jobs.Formatter
    var statusLines: seq<string>
    var errorLine: string
    var panel: LogPanel
    var sent: seq<Request>

    /** The viewer's fields as a snapshot. */
    function State(): ViewerState
      reads this
    {
      ViewerState(mode, jobStatusListening, jobLogWaiting, jobLogLooping, attached, jobId, showHistory,
                  statusLines, errorLine, panel, sent)
    }

    ghost predicate Valid()
      reads this
    {
      Inv(State())
    }

    /** make({showHistory}): a viewer that is not started yet. */
    constructor (showHistory: bool, fmt: Jobs.Formatter)
      ensures Valid() && State() == Initial(showHistory) && this.fmt == fmt
    {
      mode := New;
      jobStatusListening, jobLogWaiting, jobLogLooping := false, false, false;
      attached := false;
      jobId := "";
      this.showHistory := showHistory;
      this.fmt := fmt;
      statusLines, errorLine, panel := [], "", Blank;
      sent := [];
    }

    /** Sends a request on the bus. */
    method Send(q: Request)
      modifies this`sent
      ensures sent == old(sent) + [q]
    {
      sent := sent + [q];
    }

    /** start({node, jobId, jobState}): rejected without a node or without a job id, and
        then changes nothing; otherwise the viewer is started as Started says. */
    method Start(hasNode: bool, id: Option<string>, jobState: Option<Js>) returns (r: Outcome)
      requires Valid()
      modifies this
      ensures Valid()
      ensures r == StartCheck(hasNode, id)
      ensures r.Fail? ==> State() == old(State())
      ensures r.Pass? ==> State() == Started(id.value, jobState, showHistory, fmt)
    {
      if !hasNode {
        return Fail(NoNodeError);
      }
      if id.None? {
        return Fail(NoJobIdError);
      }
      Begin(id.value);
      if jobState.Some? && Jobs.IsValidJobStateObject(jobState.value) {
        ReceiveStatus(jobState.value);
      } else {
        Send(RequestJobStatus(jobId));
        assert State() == Begun(id.value, showHistory).(sent := [RequestJobStatus(id.value)]);
      }
      return Pass;
    }

    /** Attaches to job id: new, listening for its status, with the unknown-state line shown
        and nothing sent yet. */
    method Begin(id: string)
      modifies this
      ensures Valid() && State() == Begun(id, showHistory)
    {
      mode, jobStatusListening, jobLogWaiting, jobLogLooping, attached, jobId := New, true, false, false, true, id;
      statusLines, errorLine, panel, sent := [Jobs.UnknownLine], "", Blank, [];
    }

    /** The job-status handler. */
    method ReceiveStatus(v: Js)
      requires Valid()
      modifies this
      ensures Valid()
      ensures State() == OnStatus(old(State()), v, fmt)
    {
      if !attached || IsTerminalMode(mode) {
        return;
      }
      var parsed := Jobs.ParseJobState(v);
      if parsed.None? {
        return;
      }
      var j := parsed.value;
      Apply(ModeOf(j.status), ErrorLineOf(j), Jobs.CreateJobStatusLines(v, showHistory, fmt));
    }

    /** Moves to mode m (not new), showing the status lines and the error line err. */
    method Apply(m: Mode, err: string, lines: seq<string>)
      requires Valid() && attached && !IsTerminalMode(mode) && m != New
      modifies this
      ensures Valid()
      ensures State() == ApplyStatus(old(State()), m, err, lines)
    {
      ghost var before := State();
      var listening, waiting, looping, shownPanel, requests := jobStatusListening, jobLogWaiting, jobLogLooping, panel, sent;
      if m == Queued {
        looping, shownPanel := false, Message(QueuedMessage);
      } else if m == Running {
        looping := true;
        if !waiting {
          waiting, requests := true, sent + [RequestLatestJobLog(jobId)];
        }
      } else if m == DoesNotExist {
        listening, waiting, looping, shownPanel := false, false, false, Blank;
      } else {
        listening, looping, waiting, requests := false, false, true, sent + [RequestJobLog(jobId, 0)];
      }
      mode, statusLines, errorLine, panel := m, lines, err, shownPanel;
      jobStatusListening, jobLogWaiting, jobLogLooping, sent := listening, waiting, looping, requests;
      assert State() == ApplyStatus(before, m, err, lines);
      ApplyStatusInv(before, m, err, lines);
    }

    /** The job-logs handler. */
    method ReceiveLogs(lines: seq<LogLine>)
      requires Valid()
      modifies this
      ensures Valid()
      ensures State() == OnLogs(old(State()), lines)
    {
      if attached {
        jobLogWaiting := false;
        panel := LogPanelOf(lines);
      }
    }

    /** The job-log-deleted handler. */
    method ReceiveLogDeleted()
      requires Valid()
      modifies this
      ensures Valid()
      ensures State() == OnLogDeleted(old(State()))
    {
      if attached {
        panel := Message(NoEntriesMessage);
        if IsTerminalMode(mode) {
          jobStatusListening, jobLogWaiting, jobLogLooping := false, false, false;
        }
      }
    }

    /** The job-does-not-exist handler. */
    method ReceiveDoesNotExist()
      requires Valid()
      modifies this
      ensures Valid()
      ensures State() == OnDoesNotExist(old(State()))
    {
      ghost var before := State();
      if attached && !IsTerminalMode(mode) {
        mode := DoesNotExist;
        statusLines, errorLine, panel := [Jobs.NotFoundLine], "", Blank;
        jobStatusListening, jobLogWaiting, jobLogLooping := false, false, false;
      }
      assert State() == OnDoesNotExist(before);
      OnDoesNotExistInv(before);
    }

    /** The log-poll timer firing. */
    method Tick()
      requires Valid()
      modifies this
      ensures Valid()
      ensures State() == OnTick(old(State()))
    {
      OnTickInv(State());
      if attached && mode == Running && jobLogLooping && !jobLogWaiting {
        jobLogWaiting := true;
        Send(RequestLatestJobLog(jobId));
      }
    }

    method Stop()
      requires Valid()
      modifies this
      ensures Valid()
      ensures State() == OnStop(old(State()))
    {
      attached := false;
      jobStatusListening, jobLogWaiting, jobLogLooping := false, false, false;
    }

    method Detach()
      requires Valid()
      modifies this
      ensures Valid()
      ensures State() == OnDetach(old(State()))
    {
      Stop();
      statusLines, errorLine, panel := [], "", Blank;
    }
  }
}
