/** What a visitor is told about the processing of a video, read off its job rows. */
module VideoProcess {
  import opened Wrappers
  import opened JobQueue
  import JobLeases
  import JobPipeline

  datatype Row = Row(id: int, job: Job)

  datatype Process =
    | New
    | AtCapacity
    | FetchPending
    | FetchRunning
    | AsrPending
    | AsrRunning
    | Finished
    | Stopped(message: string)

  datatype Error = CorruptedData | NoSuchVideo | UnprocessableVideo

  // The rows of a video, each once, in any order.
  ghost predicate IsListing(db: Db, video: int, rows: seq<Row>) {
    && (forall i :: 0 <= i < |rows| ==>
          rows[i].id in db.jobs && db.jobs[rows[i].id] == rows[i].job && rows[i].job.video == video)
    && (forall i, j :: 0 <= i < j < |rows| ==> rows[i].id != rows[j].id)
    && (forall id :: id in db.jobs && db.jobs[id].video == video ==> Row(id, db.jobs[id]) in rows)
  }

  predicate IsLatest(rows: seq<Row>, row: Row) {
    row in rows && forall r :: r in rows ==> r.id <= row.id
  }

  method GetLatestJob(rows: seq<Row>) returns (latest: Option<Row>)
    ensures latest.None? <==> rows == []
    ensures latest.Some? ==> IsLatest(rows, latest.value)
  {
    if rows == [] {
      return None;
    }
    var result := rows[0];
    for i := 0 to |rows|
      invariant result in rows
      invariant forall j :: 0 <= j < i ==> rows[j].id <= result.id
    {
      if rows[i].id > result.id {
        result := rows[i];
      }
    }
    return Some(result);
  }

  function FailureMessage(job: Job): string {
    match job.jtype
    case Fetch => "fetch fail"
    case Asr => if job.lastError.Some? then "asr fail: " + job.lastError.value else "asr fail"
  }

  // A finished fetch job is never the latest row of sound data.
  function Describe(job: Job): Result<Process, Error> {
    match (job.jtype, job.state)
    case (_, Failed) => Ok(Stopped(FailureMessage(job)))
    case (Fetch, Pending) => Ok(FetchPending)
    case (Fetch, Running) => Ok(FetchRunning)
    case (Fetch, Done) => Err(CorruptedData)
    case (Asr, Pending) => Ok(AsrPending)
    case (Asr, Running) => Ok(AsrRunning)
    case (Asr, Done) => Ok(Finished)
  }

  ghost predicate Answers(rows: seq<Row>, process: Result<Process, Error>) {
    if |rows| > 2 then process == Err(CorruptedData)
    else if rows == [] then process == Ok(New)
    else exists row :: IsLatest(rows, row) && process == Describe(row.job)
  }

  method GetVideoProcess(rows: seq<Row>) returns (process: Result<Process, Error>)
    ensures Answers(rows, process)
    ensures |rows| >= 3 ==> process == Err(CorruptedData)
    ensures process == Ok(New) <==> rows == []
  {
    if |rows| > 2 {
      return Err(CorruptedData);
    }
    var latest := GetLatestJob(rows);
    if latest.None? {
      return Ok(New);
    }
    return Describe(latest.value.job);
  }

  // ---- In sound data the answer is never an error, and it says where the video really is ----

  ghost predicate HasJobIn(db: Db, video: int, t: JobType, state: JobState) {
    exists id :: id in db.jobs && IsJob(db, id, video, t) && db.jobs[id].state == state
  }

  // What each answer claims about the tables.
  ghost predicate Truthful(db: Db, video: int, process: Process) {
    && process != AtCapacity
    && (process == New <==> forall id :: id in db.jobs ==> db.jobs[id].video != video)
    && (process == FetchPending <==> HasJobIn(db, video, Fetch, Pending))
    && (process == FetchRunning <==> HasJobIn(db, video, Fetch, Running))
    && (process == AsrPending <==> HasJobIn(db, video, Asr, Pending))
    && (process == AsrRunning <==> HasJobIn(db, video, Asr, Running))
    && (process == Finished <==> HasJobIn(db, video, Asr, Done))
    && (process.Stopped? <==> HasJobIn(db, video, Fetch, Failed) || HasJobIn(db, video, Asr, Failed))
    && (process == Finished ==> video in db.blobs && JobPipeline.Transcribed(db, video))
  }

  lemma OnlyTwoTypes(a: JobType, b: JobType, c: JobType)
    ensures a == b || a == c || b == c
  {
  }

  lemma AtMostTwoRows(db: Db, video: int, rows: seq<Row>)
    requires JobPipeline.GoodDb(db) && IsListing(db, video, rows)
    ensures |rows| <= 2
    ensures |rows| == 2 ==> rows[0].job.jtype != rows[1].job.jtype
  {
    if |rows| > 2 {
      OnlyTwoTypes(rows[0].job.jtype, rows[1].job.jtype, rows[2].job.jtype);
    }
    forall i, j | 0 <= i < j < |rows| ensures rows[i].job.jtype != rows[j].job.jtype {
      assert rows[i].id != rows[j].id;
    }
  }

  lemma ListedUpToLatest(db: Db, video: int, rows: seq<Row>, row: Row, id: int)
    requires IsListing(db, video, rows) && IsLatest(rows, row) && id in db.jobs && db.jobs[id].video == video
    ensures id <= row.id
  {
    assert Row(id, db.jobs[id]) in rows;
  }

  lemma LatestFetchIsAlone(db: Db, video: int, rows: seq<Row>, row: Row, id: int)
    requires JobPipeline.GoodDb(db) && IsListing(db, video, rows) && IsLatest(rows, row) && row.job.jtype == Fetch
    ensures !IsJob(db, id, video, Asr)
  {
    hide JobPipeline.GoodDb;
    if IsJob(db, id, video, Asr) {
      JobPipeline.AsrIsLater(db, row.id, id, video);
      ListedUpToLatest(db, video, rows, row, id);
    }
  }

  // Where the latest row is, the video is.
  lemma LatestTellsAll(db: Db, video: int, rows: seq<Row>, row: Row)
    requires JobPipeline.GoodDb(db) && IsListing(db, video, rows) && IsLatest(rows, row)
    ensures row.job.jtype == Fetch ==> !HasJob(db, video, Asr) && row.job.state != Done
    ensures row.job.jtype == Asr ==> forall id :: IsJob(db, id, video, Fetch) ==> db.jobs[id].state == Done
    ensures forall id :: IsJob(db, id, video, row.job.jtype) ==> id == row.id
  {
    assert JobPipeline.GoodJob(db, row.id);
    if row.job.jtype == Asr {
      assert HasJob(db, video, Asr);
      forall id | IsJob(db, id, video, Fetch) ensures db.jobs[id].state == Done {
        JobPipeline.LaterStagesMeanFetchDone(db, id, video);
      }
    } else {
      forall id | id in db.jobs ensures !IsJob(db, id, video, Asr) {
        LatestFetchIsAlone(db, video, rows, row, id);
      }
    }
  }

  lemma AnswerIsTruthful(db: Db, video: int, rows: seq<Row>, row: Row)
    requires JobPipeline.GoodDb(db) && IsListing(db, video, rows) && IsLatest(rows, row)
    ensures Describe(row.job).Ok? && Truthful(db, video, Describe(row.job).value)
  {
    LatestTellsAll(db, video, rows, row);
    assert JobPipeline.GoodJob(db, row.id) && IsJob(db, row.id, video, row.job.jtype);
  }

  // Some job of the video has failed, and the message names its stage and, for recognition, the error.
  ghost predicate SaysWhy(db: Db, video: int, message: string) {
    exists id :: id in db.jobs && db.jobs[id].video == video && db.jobs[id].state == Failed
      && (if db.jobs[id].jtype == Fetch then message == "fetch fail"
          else db.jobs[id].lastError.Some? && message == "asr fail: " + db.jobs[id].lastError.value)
  }

  lemma StoppedSaysWhy(run: seq<System>, steps: seq<Step>, k: nat, n: nat, video: int, rows: seq<Row>,
                       process: Result<Process, Error>)
    requires IsRun(run, steps, k) && n < |run|
    requires IsListing(run[n].db, video, rows) && Answers(rows, process) && process.Ok? && process.value.Stopped?
    ensures SaysWhy(run[n].db, video, process.value.message)
  {
    JobLeases.RunIsLeased(run, steps, k, n);
    hide JobPipeline.Safe;
    var row :| IsLatest(rows, row) && process == Describe(row.job);
    assert JobLeases.GoodLease(run[n], row.id);
  }

  // For every reachable state and every listing of a video's rows: never corrupted, always true.
  lemma ReachableAnswers(run: seq<System>, steps: seq<Step>, k: nat, n: nat, video: int, rows: seq<Row>,
                         process: Result<Process, Error>)
    requires IsRun(run, steps, k) && n < |run|
    requires IsListing(run[n].db, video, rows) && Answers(rows, process)
    ensures process.Ok? && Truthful(run[n].db, video, process.value)
  {
    JobPipeline.RunIsSafe(run, steps, k, n);
    AtMostTwoRows(run[n].db, video, rows);
    if rows != [] {
      var row :| IsLatest(rows, row) && process == Describe(row.job);
      AnswerIsTruthful(run[n].db, video, rows, row);
    }
  }
}
