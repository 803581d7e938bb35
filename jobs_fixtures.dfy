/** The validator and summary cases of the job fixture tables, stated over the model of
    `common/jobs`: which records the two validators accept and reject, and the summary of a
    batch whose jobs all finished the same way. */
module JobsFixtures {
  import opened Wrappers
  import opened Text
  import opened JsValue
  import opened Jobs

  /** Neither validator accepts a value that is not an object: a number, a string, a list,
      null or undefined. */
  lemma NonObjectsRejected(v: Js)
    requires !v.Obj?
    ensures !IsValidJobStateObject(v) && !IsValidJobInfoObject(v)
  {
  }

  /** Extra keys do not make a valid job-state record invalid. */
  lemma ExtraKeysAllowed(props: seq<Prop>, extra: seq<Prop>)
    requires IsValidJobStateObject(Obj(props))
    ensures IsValidJobStateObject(Obj(props + extra))
    ensures ParseJobState(Obj(props + extra)).value.jobId == ParseJobState(Obj(props)).value.jobId
    ensures ParseJobState(Obj(props + extra)).value.status == ParseJobState(Obj(props)).value.status
    ensures ParseJobState(Obj(props + extra)).value.created == ParseJobState(Obj(props)).value.created
  {
    LookupAppend(props, extra, "job_id");
    LookupAppend(props, extra, "status");
    LookupAppend(props, extra, "created");
  }

  /** A record missing job_id, status or created is rejected, whatever else it holds. */
  lemma MissingKeyRejected(props: seq<Prop>, key: string)
    requires key == "job_id" || key == "status" || key == "created"
    requires forall k :: 0 <= k < |props| ==> props[k].key != key
    ensures !IsValidJobStateObject(Obj(props))
  {
  }

  /** The record with `create` in place of `created` is rejected. */
  lemma MisspeltCreatedRejected()
    ensures !IsValidJobStateObject(Obj([Prop("job_id", Str("baz")), Prop("create", Num(12345))]))
  {
    MissingKeyRejected([Prop("job_id", Str("baz")), Prop("create", Num(12345))], "created");
  }

  /** A record whose status is outside the enumeration is rejected. */
  lemma UnknownStatusRejected(props: seq<Prop>)
    requires ParseStatus(Lookup(props, "status")).None?
    ensures !IsValidJobStateObject(Obj(props))
  {
  }

  /** The job-info validator, for any record whose job_id is a string or a number, in any
      key order and with any extra keys: it is valid exactly when its job_params is a
      non-empty array of non-empty objects. */
  lemma JobInfoParams(props: seq<Prop>)
    requires Lookup(props, "job_id").Str? || Lookup(props, "job_id").Num?
    ensures IsValidJobInfoObject(Obj(props)) <==>
            var params := Lookup(props, "job_params");
            params.Arr? && |params.items| > 0 &&
            forall k :: 0 <= k < |params.items| ==> params.items[k].Obj? && |params.items[k].props| > 0
  {
  }

  /** The record of a job_id followed by job_params holds those two values. */
  lemma InfoRecordLookups(id: Js, params: Js)
    ensures Lookup([Prop("job_id", id), Prop("job_params", params)], "job_id") == id
    ensures Lookup([Prop("job_id", id), Prop("job_params", params)], "job_params") == params
  {
    var ps := [Prop("job_id", id), Prop("job_params", params)];
    LookupAt(ps, 0, "job_id");
    assert |ps[0].key| != |"job_params"|;
    assert Lookup(ps, "job_params") == Lookup(ps[1..], "job_params");
  }

  /** The two accepted job-info records: job_params first, then job_id, with or without the
      app id and name after them. */
  lemma ValidInfoAccepted()
    ensures IsValidJobInfoObject(Obj([Prop("job_params", Arr([Obj([Prop("this", Str("that"))])])),
                                      Prop("job_id", Str("job_with_single_param")),
                                      Prop("app_id", Str("NarrativeTest/app_sleep")),
                                      Prop("app_name", Str("App Sleep"))]))
    ensures IsValidJobInfoObject(Obj([Prop("job_params", Arr([Obj([Prop("tag_two", Str("value two")),
                                                                   Prop("tag_three", Str("value three"))])])),
                                      Prop("job_id", Str("job_with_multiple_params"))]))
  {
    var single := [Prop("job_params", Arr([Obj([Prop("this", Str("that"))])])),
                   Prop("job_id", Str("job_with_single_param")),
                   Prop("app_id", Str("NarrativeTest/app_sleep")),
                   Prop("app_name", Str("App Sleep"))];
    assert |single[0].key| != |"job_id"|;
    assert Lookup(single, "job_id") == Lookup(single[1..], "job_id");
    JobInfoParams(single);
    var multiple := [Prop("job_params", Arr([Obj([Prop("tag_two", Str("value two")),
                                                 Prop("tag_three", Str("value three"))])])),
                     Prop("job_id", Str("job_with_multiple_params"))];
    assert |multiple[0].key| != |"job_id"|;
    assert Lookup(multiple, "job_id") == Lookup(multiple[1..], "job_id");
    JobInfoParams(multiple);
  }

  /** The rejected job-info cases with empty parameters: an empty job_params list, and a
      list holding an empty object. */
  lemma EmptyParamsRejected(id: Js)
    requires id.Str? || id.Num?
    ensures !IsValidJobInfoObject(Obj([Prop("job_id", id), Prop("job_params", Arr([]))]))
    ensures !IsValidJobInfoObject(Obj([Prop("job_id", id), Prop("job_params", Arr([Obj([])]))]))
  {
    InfoRecordLookups(id, Arr([]));
    JobInfoParams([Prop("job_id", id), Prop("job_params", Arr([]))]);
    var empty := Arr([Obj([])]);
    InfoRecordLookups(id, empty);
    JobInfoParams([Prop("job_id", id), Prop("job_params", empty)]);
    assert !IsNonEmptyObject(empty.items[0]);
  }

  /** The rejected job-info cases whose parameters are not a list of objects: an object in
      place of the list, and a list holding a string or a list. */
  lemma NonObjectParamsRejected(id: Js, x: string, items: seq<Js>, props: seq<Prop>)
    requires id.Str? || id.Num?
    ensures !IsValidJobInfoObject(Obj([Prop("job_id", id), Prop("job_params", Obj(props))]))
    ensures !IsValidJobInfoObject(Obj([Prop("job_id", id), Prop("job_params", Arr([Str(x)]))]))
    ensures !IsValidJobInfoObject(Obj([Prop("job_id", id), Prop("job_params", Arr([Arr(items)]))]))
  {
    InfoRecordLookups(id, Obj(props));
    var text := Arr([Str(x)]);
    InfoRecordLookups(id, text);
    JobInfoParams([Prop("job_id", id), Prop("job_params", text)]);
    assert !text.items[0].Obj?;
    var list := Arr([Arr(items)]);
    InfoRecordLookups(id, list);
    JobInfoParams([Prop("job_id", id), Prop("job_params", list)]);
    assert !list.items[0].Obj?;
  }

  /** The empty object, and the record that names its parameters `params` instead of
      job_params, are rejected. */
  lemma MisnamedParamsRejected(id: Js, params: Js)
    ensures !IsValidJobInfoObject(Obj([]))
    ensures !IsValidJobInfoObject(Obj([Prop("job_id", id), Prop("params", params)]))
  {
    var ps := [Prop("job_id", id), Prop("params", params)];
    assert |ps[0].key| != |"job_params"|;
    assert |ps[1].key| != |"job_params"|;
    assert Lookup(ps, "job_params") == Lookup(ps[1..], "job_params");
    assert Lookup(ps[1..], "job_params") == Lookup(ps[2..], "job_params");
  }

  /** A job info without a job_id is rejected, whatever its parameters. */
  lemma MissingJobIdRejected(params: seq<Prop>)
    ensures !IsValidJobInfoObject(Obj([Prop("job_params", Arr([Obj(params)]))]))
  {
    var ps := [Prop("job_params", Arr([Obj(params)]))];
    assert |ps[0].key| != |"job_id"|;
    assert Lookup(ps, "job_id") == Lookup(ps[1..], "job_id");
  }

  /** A batch of three completed jobs is summarised as finished with success. */
  lemma ThreeSuccesses()
    ensures CreateCombinedJobState(Some([Obj([Prop("status", Str("completed"))]),
                                         Obj([Prop("status", Str("completed"))]),
                                         Obj([Prop("status", Str("completed"))])])).text ==
            "batch job finished with success: 3 successes"
  {
    var job := Obj([Prop("status", Str("completed"))]);
    var jobs := [job, job, job];
    CompletedJob();
    assert forall k :: 0 <= k < |jobs| ==> jobs[k] == job;
    UniformFinishedBatch(jobs, SuccessBucket);
    SuccessPhrase();
  }

  lemma CompletedJob()
    ensures IsTerminalStatus(Get(Obj([Prop("status", Str("completed"))]), "status"))
    ensures JobBucket(Obj([Prop("status", Str("completed"))])) == SuccessBucket
  {
    assert Get(Obj([Prop("status", Str("completed"))]), "status") == Str("completed");
    ParseStatusName(Completed);
  }

  lemma SuccessPhrase()
    ensures FinishedPrefix + (" with " + BatchOutcome(SuccessBucket) + ": " + BucketPhrase(3, SuccessBucket)) ==
            "batch job finished with success: 3 successes"
  {
    ThreeSuccessesPhrase();
  }

  lemma ThreeSuccessesPhrase()
    ensures BucketPhrase(3, SuccessBucket) == "3 successes"
  {
    assert NatToString(3) == [Digit(3)];
  }

  // ---------------------------------------------------------------------------------------
  // Batch summaries of the fixture table. The summary reads only a job's status, so each
  // job is the record holding its status alone.

  /** A record holding only the given status. */
  function StatusJob(st: Status): Js {
    Obj([Prop("status", Str(StatusName(st)))])
  }

  /** n jobs in one status, one after another. */
  function Run(st: Status, n: nat): seq<Js> {
    seq(n, _ => StatusJob(st))
  }

  lemma StatusJobFacts(st: Status)
    ensures JobBucket(StatusJob(st)) == BucketOf(Some(st))
    ensures IsTerminalStatus(Get(StatusJob(st), "status")) <==> IsTerminal(st)
  {
    assert Get(StatusJob(st), "status") == Str(StatusName(st));
    ParseStatusName(st);
  }

  /** A run counts n in its own bucket and none elsewhere. */
  lemma RunCount(st: Status, n: nat, b: Bucket)
    ensures CountBucket(Run(st, n), b) == if BucketOf(Some(st)) == b then n else 0
  {
    StatusJobFacts(st);
    UniformCount(Run(st, n), BucketOf(Some(st)));
  }

  /** A run is in progress when it is not empty and its status is not terminal. */
  lemma RunProgress(st: Status, n: nat)
    ensures AnyInProgress(Run(st, n)) <==> n > 0 && !IsTerminal(st)
  {
    StatusJobFacts(st);
    if n > 0 {
      assert Run(st, n)[0] == StatusJob(st);
    }
  }

  /** Progress is shared over two consecutive parts of a batch. */
  lemma AppendProgress(a: seq<Js>, c: seq<Js>)
    ensures AnyInProgress(a + c) <==> AnyInProgress(a) || AnyInProgress(c)
  {
    if AnyInProgress(a + c) {
      var k :| 0 <= k < |a + c| && !IsTerminalStatus(Get((a + c)[k], "status"));
      if k < |a| {
        assert (a + c)[k] == a[k];
      } else {
        assert (a + c)[k] == c[k - |a|];
      }
    }
    if AnyInProgress(a) {
      var k :| 0 <= k < |a| && !IsTerminalStatus(Get(a[k], "status"));
      assert (a + c)[k] == a[k];
    }
    if AnyInProgress(c) {
      var k :| 0 <= k < |c| && !IsTerminalStatus(Get(c[k], "status"));
      assert (a + c)[|a| + k] == c[k];
    }
  }

  /** The batch of every fixture record, in the order of the test data: created, estimating,
      queued, terminated, running, terminated, error, error, completed, does_not_exist. */
  function AllJobs(): seq<Js> {
    QueuePhaseJobs() + MiddleJobs() + LateJobs()
  }

  function QueuePhaseJobs(): seq<Js> {
    Run(Created, 1) + Run(Estimating, 1) + Run(Queued, 1)
  }

  function MiddleJobs(): seq<Js> {
    Run(Terminated, 1) + Run(Running, 1) + Run(Terminated, 1)
  }

  function LateJobs(): seq<Js> {
    Run(Error, 2) + Run(Completed, 1) + Run(DoesNotExist, 1)
  }

  /** How many of the fixture records fall in each bucket. */
  function AllJobsExpected(b: Bucket): nat {
    match b
    case QueuedBucket => 3
    case RunningBucket => 1
    case SuccessBucket => 1
    case FailedBucket => 2
    case CancelledBucket => 2
    case NotFoundBucket => 1
  }

  lemma AllJobsCount(b: Bucket)
    ensures CountBucket(AllJobs(), b) == AllJobsExpected(b)
  {
    QueuePhaseCount(b);
    MiddleCount(b);
    LateCount(b);
    AllJobsParts(QueuePhaseJobs(), MiddleJobs(), LateJobs(), b);
  }

  /** The counts of the three parts of the batch add up to the expected counts. */
  lemma AllJobsParts(q: seq<Js>, m: seq<Js>, l: seq<Js>, b: Bucket)
    requires CountBucket(q, b) == if b == QueuedBucket then 3 else 0
    requires CountBucket(m, b) == if b == CancelledBucket then 2 else if b == RunningBucket then 1 else 0
    requires CountBucket(l, b) ==
             if b == FailedBucket then 2 else if b == SuccessBucket || b == NotFoundBucket then 1 else 0
    ensures CountBucket(q + m + l, b) == AllJobsExpected(b)
  {
    ThreePartCount(q, m, l, b);
  }

  /** The count of a batch made of three consecutive parts. */
  lemma ThreePartCount(q: seq<Js>, m: seq<Js>, l: seq<Js>, b: Bucket)
    ensures CountBucket(q + m + l, b) == CountBucket(q, b) + CountBucket(m, b) + CountBucket(l, b)
  {
    CountBucketAppend(q, m, b);
    CountBucketAppend(q + m, l, b);
  }

  /** What a run of n jobs in status st adds to the count of bucket b. */
  function Share(st: Status, n: nat, b: Bucket): nat {
    if BucketOf(Some(st)) == b then n else 0
  }

  /** Three consecutive runs count what each run adds. */
  lemma ThreeRunCount(s1: Status, n1: nat, s2: Status, n2: nat, s3: Status, n3: nat, b: Bucket)
    ensures CountBucket(Run(s1, n1) + Run(s2, n2) + Run(s3, n3), b) == Share(s1, n1, b) + Share(s2, n2, b) + Share(s3, n3, b)
  {
    RunCount(s1, n1, b);
    RunCount(s2, n2, b);
    RunCount(s3, n3, b);
    ThreePartCount(Run(s1, n1), Run(s2, n2), Run(s3, n3), b);
  }

  lemma QueuePhaseCount(b: Bucket)
    ensures CountBucket(QueuePhaseJobs(), b) == if b == QueuedBucket then 3 else 0
  {
    ThreeRunCount(Created, 1, Estimating, 1, Queued, 1, b);
  }

  lemma MiddleCount(b: Bucket)
    ensures CountBucket(MiddleJobs(), b) ==
            if b == CancelledBucket then 2 else if b == RunningBucket then 1 else 0
  {
    ThreeRunCount(Terminated, 1, Running, 1, Terminated, 1, b);
    assert BucketOf(Some(Terminated)) == CancelledBucket && BucketOf(Some(Running)) == RunningBucket;
  }

  lemma LateCount(b: Bucket)
    ensures CountBucket(LateJobs(), b) ==
            if b == FailedBucket then 2 else if b == SuccessBucket || b == NotFoundBucket then 1 else 0
  {
    ThreeRunCount(Error, 2, Completed, 1, DoesNotExist, 1, b);
    assert BucketOf(Some(Error)) == FailedBucket && BucketOf(Some(Completed)) == SuccessBucket;
    assert BucketOf(Some(DoesNotExist)) == NotFoundBucket;
  }

  lemma AllJobsInProgress()
    ensures AnyInProgress(AllJobs())
  {
    RunProgress(Created, 1);
    AppendProgress(Run(Created, 1), Run(Estimating, 1));
    AppendProgress(Run(Created, 1) + Run(Estimating, 1), Run(Queued, 1));
    AppendProgress(QueuePhaseJobs(), MiddleJobs());
    AppendProgress(QueuePhaseJobs() + MiddleJobs(), LateJobs());
  }

  /** 'all jobs': every bucket is listed, in queue-to-outcome order. */
  lemma AllJobsSummary()
    ensures CreateCombinedJobState(Some(AllJobs())).text ==
            "batch job in progress: " +
            Join(["3 queued", "1 running", "1 success", "2 failed", "2 cancelled", "1 not found"], ", ")
  {
    AllJobsInProgress();
    AllJobsCount(QueuedBucket);
    AllJobsCount(RunningBucket);
    AllJobsCount(SuccessBucket);
    AllJobsCount(FailedBucket);
    AllJobsCount(CancelledBucket);
    AllJobsCount(NotFoundBucket);
    CombinedJobStateByCounts(AllJobs());
    AllJobsPhrases();
  }

  lemma AllJobsPhrases()
    ensures Listed(3, QueuedBucket) + Listed(1, RunningBucket) + Listed(1, SuccessBucket) + Listed(2, FailedBucket)
            + Listed(2, CancelledBucket) + Listed(1, NotFoundBucket)
            == ["3 queued", "1 running", "1 success", "2 failed", "2 cancelled", "1 not found"]
  {
    assert NatToString(1) == "1" && NatToString(2) == "2" && NatToString(3) == "3";
    assert BucketPhrase(3, QueuedBucket) == "3 queued";
    assert BucketPhrase(1, RunningBucket) == "1 running";
    assert BucketPhrase(1, SuccessBucket) == "1 success";
    assert BucketPhrase(2, FailedBucket) == "2 failed";
    assert BucketPhrase(2, CancelledBucket) == "2 cancelled";
    assert BucketPhrase(1, NotFoundBucket) == "1 not found";
  }

  /** The mixed finished batch of the test table: terminated, error, completed, error, error. */
  function MixedFinish(): seq<Js> {
    Run(Terminated, 1) + Run(Error, 1) + Run(Completed, 1) + Run(Error, 2)
  }

  function MixedFinishExpected(b: Bucket): nat {
    match b
    case SuccessBucket => 1
    case FailedBucket => 3
    case CancelledBucket => 1
    case _ => 0
  }

  lemma MixedFinishCount(b: Bucket)
    ensures CountBucket(MixedFinish(), b) == MixedFinishExpected(b)
  {
    var first := Run(Terminated, 1) + Run(Error, 1) + Run(Completed, 1);
    ThreeRunCount(Terminated, 1, Error, 1, Completed, 1, b);
    RunCount(Error, 2, b);
    CountBucketAppend(first, Run(Error, 2), b);
    assert BucketOf(Some(Error)) == FailedBucket && BucketOf(Some(Completed)) == SuccessBucket;
    assert BucketOf(Some(Terminated)) == CancelledBucket;
  }

  lemma MixedFinishDone()
    ensures !AnyInProgress(MixedFinish())
  {
    var p1 := Run(Terminated, 1);
    var p2 := p1 + Run(Error, 1);
    var p3 := p2 + Run(Completed, 1);
    RunProgress(Terminated, 1);
    RunProgress(Error, 1);
    AppendProgress(p1, Run(Error, 1));
    RunProgress(Completed, 1);
    AppendProgress(p2, Run(Completed, 1));
    RunProgress(Error, 2);
    AppendProgress(p3, Run(Error, 2));
  }

  /** 'mix of finish states': a finished batch in several buckets lists its outcome counts. */
  lemma MixedFinishSummary()
    ensures CreateCombinedJobState(Some(MixedFinish())).text ==
            "batch job finished: " + Join(["1 success", "3 failed", "1 cancelled"], ", ")
  {
    MixedFinishDone();
    MixedFinishCount(QueuedBucket);
    MixedFinishCount(RunningBucket);
    MixedFinishCount(SuccessBucket);
    MixedFinishCount(FailedBucket);
    MixedFinishCount(CancelledBucket);
    MixedFinishCount(NotFoundBucket);
    CombinedJobStateByCounts(MixedFinish());
    MixedFinishText();
  }

  lemma MixedFinishText()
    ensures SummaryOfCounts(false, 0, 0, 1, 3, 1, 0) ==
            "batch job finished: " + Join(["1 success", "3 failed", "1 cancelled"], ", ")
  {
    MixedFinishPhrases();
    var tail := Join(["1 success", "3 failed", "1 cancelled"], ", ");
    assert FinishedPrefix + (": " + tail) == (FinishedPrefix + ": ") + tail;
  }

  lemma MixedFinishPhrases()
    ensures Listed(1, SuccessBucket) + Listed(3, FailedBucket) + Listed(1, CancelledBucket) + Listed(0, NotFoundBucket)
            == ["1 success", "3 failed", "1 cancelled"]
  {
    assert NatToString(1) == "1" && NatToString(3) == "3";
    assert BucketPhrase(1, SuccessBucket) == "1 success";
    assert BucketPhrase(3, FailedBucket) == "3 failed";
    assert BucketPhrase(1, CancelledBucket) == "1 cancelled";
  }

  /** 'jobs do not exist': two jobs that do not exist finish with error. */
  lemma NotFoundSummary()
    ensures CreateCombinedJobState(Some([StatusJob(DoesNotExist), StatusJob(DoesNotExist)])).text ==
            "batch job finished with error: 2 not found"
  {
    var job := StatusJob(DoesNotExist);
    var jobs := [job, job];
    StatusJobFacts(DoesNotExist);
    assert forall k :: 0 <= k < |jobs| ==> jobs[k] == job;
    UniformFinishedBatch(jobs, NotFoundBucket);
    NotFoundPhrase();
  }

  lemma NotFoundPhrase()
    ensures FinishedPrefix + (" with " + BatchOutcome(NotFoundBucket) + ": " + BucketPhrase(2, NotFoundBucket)) ==
            "batch job finished with error: 2 not found"
  {
    assert NatToString(2) == "2";
    assert BucketPhrase(2, NotFoundBucket) == "2 not found";
    assert BatchOutcome(NotFoundBucket) == "error";
    NotFoundText();
  }

  lemma NotFoundText()
    ensures "batch job finished" + (" with " + "error" + ": " + "2 not found") == "batch job finished with error: 2 not found"
  {
  }

  /** The error string of the queue-error fixture. */
  lemma QueueErrorString()
    ensures ErrorString(JobError(666, "Queue error", "")) == "Queue error: Error code: 666"
  {
    QueueErrorCode();
    ErrorStringOf(JobError(666, "Queue error", ""), "666");
    QueueErrorText();
  }

  lemma QueueErrorText()
    ensures "Queue error" + ": Error code: " + "666" == "Queue error: Error code: 666"
  {
  }

  lemma QueueErrorCode()
    ensures IntToString(666) == "666"
  {
    assert NatToString(6) == "6";
    assert NatToString(66) == NatToString(6) + "6";
    assert NatToString(666) == NatToString(66) + "6";
  }

  /** The error string of the server-error fixture: a negative code keeps its sign. */
  lemma ServerErrorString()
    ensures ErrorString(JobError(-32000, "Server error", "")) == "Server error: Error code: -32000"
  {
    ServerErrorCode();
    ErrorStringOf(JobError(-32000, "Server error", ""), "-32000");
    ServerErrorText();
  }

  lemma ServerErrorText()
    ensures "Server error" + ": Error code: " + "-32000" == "Server error: Error code: -32000"
  {
  }

  /** An error string, once its code has been written out. */
  lemma ErrorStringOf(e: JobError, code: string)
    requires IntToString(e.code) == code
    ensures ErrorString(e) == e.name + ": Error code: " + code
  {
  }

  lemma ServerErrorCode()
    ensures IntToString(-32000) == "-32000"
  {
    assert NatToString(3) == "3";
    assert NatToString(32) == NatToString(3) + "2";
    assert NatToString(320) == NatToString(32) + "0";
    assert NatToString(3200) == NatToString(320) + "0";
    assert NatToString(32000) == NatToString(3200) + "0";
  }
}
