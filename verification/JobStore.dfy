/** The tables behind the job queue as mutable state, and the services on top of them. */
module JobStore {
  import opened Constants
  import opened Sets
  import opened Wrappers
  import opened JobQueue
  import JobLeases
  import VideoProcess
  import VadRestore

  datatype FailError = NoSuchJob | NotRunning | NotLockedByWorker

  ghost predicate IsOldestClaimable(db: Db, t: JobType, skipLocked: set<int>, id: int) {
    && id in db.jobs && id !in skipLocked && Claimable(db, db.jobs[id], t)
    && forall j :: j in db.jobs && j !in skipLocked && Claimable(db, db.jobs[j], t) ==>
         db.jobs[id].createdAt <= db.jobs[j].createdAt
  }

  // What a lease check answers for a row that is locked.
  predicate LeaseHolds(db: Db, id: int, worker: string) {
    Owned(db, id, worker) && db.jobs[id].lockedUntil.Some? && db.jobs[id].lockedUntil.value >= db.now
  }

  ghost predicate HasJobs(db: Db, video: int) {
    exists id :: id in db.jobs && db.jobs[id].video == video
  }

  ghost predicate IsEligible(db: Db, video: int) {
    !HasJobs(db, video) && Processable(db, video)
  }

  datatype Obstacle = NotEmbeddable | TooLong | TooFewLikes | TooFewViews

  method ProcessingObstacle(video: Video) returns (obstacle: Option<Obstacle>)
    ensures obstacle.Some? <==> HasObstacle(video)
    ensures match obstacle
            case Some(NotEmbeddable) => !video.embeddable
            case Some(TooLong) => video.secs > MAX_DURATION_SECS
            case Some(TooFewLikes) => 0 <= video.likes < MIN_LIKES_COUNT
            case Some(TooFewViews) => video.views < MIN_VIEWS_COUNT
            case None =>
              && video.embeddable && video.secs <= MAX_DURATION_SECS && video.views >= MIN_VIEWS_COUNT
              && (video.likes < 0 || video.likes >= MIN_LIKES_COUNT)
  {
    if !video.embeddable {
      return Some(NotEmbeddable);
    }
    if CheckedSecs(video) > MAX_DURATION_SECS {
      return Some(TooLong);
    }
    if video.likes >= 0 {
      if video.likes < MIN_LIKES_COUNT {
        return Some(TooFewLikes);
      }
    }
    if video.views < MIN_VIEWS_COUNT {
      return Some(TooFewViews);
    }
    return None;
  }

  predicate HasRoom(db: Db) { |ActiveJobs(db)| < MAX_QUEUE_SIZE }

  class Store {
    var videos: map<int, Video>
    var jobs: map<int, Job>
    var nextId: int
    var blobs: map<int, Blob>
    var transcriptions: map<TranscriptionKey, seq<VadRestore.Word>>
    var sentences: map<TranscriptionKey, nat>
    var used: map<int, int>
    var now: int

    function State(): Db
      reads this
    {
      Db(videos, jobs, nextId, blobs, transcriptions, sentences, used, now)
    }

    constructor (videos: map<int, Video>, now: int)
      ensures State() == Db(videos, map[], 1, map[], map[], map[], map[], now)
    {
      this.videos, jobs, nextId, blobs := videos, map[], 1, map[];
      transcriptions, sentences, used, this.now := map[], map[], map[], now;
    }

    // ---- Statements ----

    method FindJob(video: int, t: JobType) returns (found: bool)
      ensures found <==> HasJob(State(), video, t)
    {
      var same := set id | id in jobs && jobs[id].video == video && jobs[id].jtype == t;
      found := same != {};
      if found {
        var id := Any(same);
        assert IsJob(State(), id, video, t);
      } else {
        assert forall id :: id in jobs && IsJob(State(), id, video, t) ==> id in same;
      }
    }

    method InsertJobRow(video: int, t: JobType, online: string) returns (ok: bool)
      modifies this`jobs, this`nextId
      ensures ok <==> InsertJob(old(State()), video, t, online).Some?
      ensures State() == Applied(InsertJob(old(State()), video, t, online), SkipId(old(State())))
    {
      var found := FindJob(video, t);
      if !found {
        jobs := jobs[nextId := NewJob(video, t, online, now)];
      }
      nextId := nextId + 1;
      return !found;
    }

    method CreateFetchJob(video: int) returns (created: bool)
      requires video in videos
      modifies this`jobs, this`nextId
      ensures created <==> !HasJob(old(State()), video, Fetch)
      ensures State() == CreateFetchJobIfAbsent(old(State()), video)
    {
      created := InsertJobRow(video, Fetch, videos[video].online);
    }

    // The oldest claimable job that no other transaction has locked.
    method ClaimOldest(t: JobType, worker: string, lockedUntil: int, skipLocked: set<int>)
      returns (claimed: Option<int>)
      modifies this`jobs
      ensures claimed.None? ==> State() == old(State())
      ensures claimed.None? ==> forall id :: id in jobs && id !in skipLocked ==> !Claimable(State(), jobs[id], t)
      ensures claimed.Some? ==> IsOldestClaimable(old(State()), t, skipLocked, claimed.value)
      ensures claimed.Some? ==> State() == Claim(old(State()), claimed.value, worker, lockedUntil)
    {
      var todo := jobs.Keys - skipLocked;
      claimed := None;
      while todo != {}
        invariant unchanged(this)
        invariant todo <= jobs.Keys - skipLocked
        invariant claimed.Some? ==>
          claimed.value in jobs && claimed.value !in skipLocked && Claimable(State(), jobs[claimed.value], t)
        invariant forall j :: j in jobs && j !in skipLocked && j !in todo && Claimable(State(), jobs[j], t) ==>
          claimed.Some? && jobs[claimed.value].createdAt <= jobs[j].createdAt
        decreases todo
      {
        var id := Any(todo);
        var job := jobs[id];
        var expired := job.lockedUntil.Some? && job.lockedUntil.value < now;
        var free := job.state == Pending || (job.state == Running && expired);
        if job.jtype == t && job.attempts < MAX_ATTEMPTS && free {
          if claimed.None? || job.createdAt < jobs[claimed.value].createdAt {
            claimed := Some(id);
          }
        }
        todo := todo - {id};
      }
      if claimed.Some? {
        var job := jobs[claimed.value];
        jobs := jobs[claimed.value := job.(state := Running, lockedBy := Some(worker), lockedUntil := Some(lockedUntil),
                                           attempts := job.attempts + 1)];
      }
    }

    method MarkDone(id: int, t: JobType, worker: string) returns (ok: bool)
      modifies this`jobs
      ensures ok <==> MarkJobDone(old(State()), id, t, worker).Some?
      ensures State() == Applied(MarkJobDone(old(State()), id, t, worker), old(State()))
    {
      if id in jobs && jobs[id].jtype == t && jobs[id].state == Running && jobs[id].lockedBy == Some(worker) {
        jobs := jobs[id := jobs[id].(state := Done, lastError := None)];
        return true;
      }
      return false;
    }

    method ReleaseRow(id: int, worker: string, state: JobState, message: string) returns (ok: bool)
      modifies this`jobs
      ensures ok <==> Release(old(State()), id, worker, state, message).Some?
      ensures State() == Applied(Release(old(State()), id, worker, state, message), old(State()))
    {
      if id in jobs && jobs[id].state == Running && jobs[id].lockedBy == Some(worker) {
        jobs := jobs[id :=
          jobs[id].(state := state, lockedBy := None, lockedUntil := None, lastError := Some(message))];
        return true;
      }
      return false;
    }

    // ---- Services ----

    method CheckQuotaOk() returns (ok: bool)
      ensures ok <==> Used(State(), Today(State())) < DAILY_QUOTA_SECS
    {
      var day := DayOf(now);
      if day !in used {
        return true;
      }
      return used[day] < DAILY_QUOTA_SECS;
    }

    // Nothing is leased, and nothing changes, when the quota is used up or no job is free.
    method LeaseJob(worker: string, t: JobType, skipLocked: set<int>) returns (task: Option<Task>)
      modifies this`jobs
      ensures task.None? ==> State() == old(State())
      ensures task.None? ==>
        (t == Asr && Used(State(), Today(State())) >= DAILY_QUOTA_SECS)
        || forall id :: id in jobs && id !in skipLocked ==> !Claimable(State(), jobs[id], t)
      ensures task.Some? ==> t == Asr ==> Used(old(State()), Today(old(State()))) < DAILY_QUOTA_SECS
      ensures task.Some? ==> IsOldestClaimable(old(State()), t, skipLocked, task.value.id)
      ensures task.Some? ==> task.value.video == old(jobs)[task.value.id].video && task.value.t == t
      ensures task.Some? ==>
        State() == Claim(old(State()), task.value.id, worker,
                         now + (if t == Asr then ASR_LEASE_SECS else FETCH_LEASE_SECS))
    {
      var lockPeriod := FETCH_LEASE_SECS;
      if t == Asr {
        lockPeriod := ASR_LEASE_SECS;
        var ok := CheckQuotaOk();
        if !ok {
          return None;
        }
      }
      var claimed := ClaimOldest(t, worker, now + lockPeriod, skipLocked);
      if claimed.None? {
        return None;
      }
      return Some(Task(claimed.value, jobs[claimed.value].video, t));
    }

    // The service reads through the owner column without looking whether it is NULL; None means that it stops there.
    method CheckLease(id: int, worker: string) returns (valid: Option<bool>)
      ensures valid.None? <==> id in jobs && jobs[id].lockedBy.None?
      ensures valid.Some? ==> (valid.value <==> LeaseHolds(State(), id, worker))
    {
      if id !in jobs {
        return Some(false);
      }
      var job := jobs[id];
      if job.lockedBy.None? {
        return None;
      }
      if job.lockedBy.value != worker {
        return Some(false);
      }
      if job.lockedUntil.None? || job.lockedUntil.value < now {
        return Some(false);
      }
      if job.state != Running {
        return Some(false);
      }
      return Some(true);
    }

    // A transaction; a failed one gives back everything but the drawn ids.
    method CompleteFetchJob(worker: string, id: int, video: int, blob: Blob) returns (ok: bool)
      modifies this`jobs, this`nextId, this`blobs
      ensures ok <==> CompleteFetch(old(State()), worker, id, video, blob).ok
      ensures State() == CompleteFetch(old(State()), worker, id, video, blob).db
    {
      var jobsBefore, blobsBefore := jobs, blobs;
      if video !in videos || video in blobs {
        return false;
      }
      blobs := blobs[video := blob];
      ok := MarkDone(id, Fetch, worker);
      if ok {
        ok := InsertJobRow(jobs[id].video, Asr, jobs[id].online);
      }
      if !ok {
        jobs, blobs := jobsBefore, blobsBefore;
      }
    }

    method CompleteAsrJob(worker: string, id: int, video: int, model: string, words: seq<VadRestore.Word>)
      returns (ok: bool)
      modifies this`jobs, this`transcriptions, this`sentences, this`used
      ensures ok <==> CompleteAsr(old(State()), worker, id, video, model, words).ok
      ensures State() == CompleteAsr(old(State()), worker, id, video, model, words).db
    {
      if video !in videos {
        return false;
      }
      var usedSeconds := ChargedSecs(videos[video]);
      var before, sentencesBefore := transcriptions, sentences;
      var key := TranscriptionKey(video, model);
      transcriptions := transcriptions[key := words];
      sentences := sentences - {key};
      ok := Storable(words);
      if ok {
        ok := MarkDone(id, Asr, worker);
      }
      if !ok {
        transcriptions, sentences := before, sentencesBefore;
        return;
      }
      var day := DayOf(now);
      used := used[day := (if day in used then used[day] else 0) + usedSeconds];
    }

    // Reads the row, then writes it; the process model lets other steps come in between.
    method FailJob(id: int, worker: string, message: string, final: bool) returns (result: Result<JobState, FailError>)
      modifies this`jobs
      ensures result.Ok? <==> Owned(old(State()), id, worker)
      ensures result.Err? ==> State() == old(State())
      ensures result.Err? ==>
        result.error == (if id !in old(jobs) then NoSuchJob
                         else if old(jobs)[id].state != Running then NotRunning else NotLockedByWorker)
      ensures result.Ok? ==> (result.value == Pending <==> old(jobs)[id].attempts < MAX_ATTEMPTS && !final)
      ensures result.Ok? ==> result.value == Pending || result.value == Failed
      ensures result.Ok? ==> Release(old(State()), id, worker, result.value, message) == Some(State())
    {
      if id !in jobs {
        return Err(NoSuchJob);
      }
      var job := jobs[id];
      if job.state != Running {
        return Err(NotRunning);
      }
      if job.lockedBy.None? || job.lockedBy.value != worker {
        return Err(NotLockedByWorker);
      }
      var state := if job.attempts < MAX_ATTEMPTS && !final then Pending else Failed;
      var _ := ReleaseRow(id, worker, state, message);
      return Ok(state);
    }

    method GetVideoJobs(video: int) returns (rows: seq<VideoProcess.Row>)
      ensures VideoProcess.IsListing(State(), video, rows)
    {
      var todo := set id | id in jobs && jobs[id].video == video;
      rows := [];
      while todo != {}
        invariant todo <= jobs.Keys
        invariant forall i :: 0 <= i < |rows| ==>
          rows[i].id in jobs && jobs[rows[i].id] == rows[i].job && rows[i].job.video == video
        invariant forall i :: 0 <= i < |rows| ==> rows[i].id !in todo
        invariant forall i, j :: 0 <= i < j < |rows| ==> rows[i].id != rows[j].id
        invariant forall id :: id in jobs && jobs[id].video == video ==>
          id in todo || VideoProcess.Row(id, jobs[id]) in rows
        invariant forall id :: id in todo ==> jobs[id].video == video
        decreases todo
      {
        var id := Any(todo);
        rows := rows + [VideoProcess.Row(id, jobs[id])];
        todo := todo - {id};
      }
    }

    // A job is created exactly for a known video without jobs and obstacles while the queue has room.
    method GetOrCreateVideoProcess(video: int)
      returns (process: Result<VideoProcess.Process, VideoProcess.Error>, ghost rows: seq<VideoProcess.Row>)
      modifies this`jobs, this`nextId
      ensures VideoProcess.IsListing(State(), video, rows)
      ensures State() == if IsEligible(old(State()), video) && HasRoom(old(State()))
                         then CreateFetchJobIfAbsent(old(State()), video) else old(State())
      ensures var db := old(State());
        if HasJobs(db, video) then VideoProcess.Answers(rows, process)
        else if video !in db.videos then process == Err(VideoProcess.NoSuchVideo)
        else if !Processable(db, video) then process == Err(VideoProcess.UnprocessableVideo)
        else if !HasRoom(db) then process == Ok(VideoProcess.AtCapacity)
        else process == Ok(VideoProcess.FetchPending)
    {
      var found := GetVideoJobs(video);
      rows := found;
      process := VideoProcess.GetVideoProcess(found);
      assert found != [] ==> jobs[found[0].id].video == video;
      if process != Ok(VideoProcess.New) {
        return;
      }
      if video !in videos {
        process := Err(VideoProcess.NoSuchVideo);
        return;
      }
      var obstacle := ProcessingObstacle(videos[video]);
      if obstacle.Some? {
        process := Err(VideoProcess.UnprocessableVideo);
        return;
      }
      var active := set id | id in jobs && IsActive(jobs[id]);
      assert active == ActiveJobs(State());
      if |active| >= MAX_QUEUE_SIZE {
        process := Ok(VideoProcess.AtCapacity);
        return;
      }
      ghost var id := nextId;
      var created := CreateFetchJob(video);
      found := GetVideoJobs(video);
      rows := found;
      process := VideoProcess.GetVideoProcess(found);
      NewVideoIsPending(State(), video, rows, id);
    }
  }

  // The only row of a video is its new job.
  lemma NewVideoIsPending(db: Db, video: int, rows: seq<VideoProcess.Row>, id: int)
    requires VideoProcess.IsListing(db, video, rows)
    requires id in db.jobs && db.jobs[id].video == video && db.jobs[id].jtype == Fetch && db.jobs[id].state == Pending
    requires forall i :: i in db.jobs && db.jobs[i].video == video ==> i == id
    ensures |rows| == 1 && rows[0] == VideoProcess.Row(id, db.jobs[id])
  {
    var k :| 0 <= k < |rows| && rows[k] == VideoProcess.Row(id, db.jobs[id]);
    assert rows[0].id == rows[k].id == rows[|rows| - 1].id;
  }

  // In a reachable state the owner column is set exactly for running and finished jobs, so the
  // lease check is safe for those alone; and only the latest claimer passes it.
  lemma LeaseCheckIsSafeExactly(run: seq<System>, steps: seq<Step>, k: nat, i: nat, id: int, worker: string)
    requires IsRun(run, steps, k) && i < |run| && id in run[i].db.jobs
    ensures run[i].db.jobs[id].lockedBy.Some?
            <==> run[i].db.jobs[id].state == Running || run[i].db.jobs[id].state == Done
    ensures LeaseHolds(run[i].db, id, worker) ==>
      Claims(run[i], id) != [] && Claims(run[i], id)[|Claims(run[i], id)| - 1] == worker
  {
    JobLeases.RunIsLeased(run, steps, k, i);
    assert JobLeases.GoodLease(run[i], id);
  }

  // Jobs are claimed in the order of their arrival: a claim passes over a claimable job that came
  // earlier only if both were created at the same time.
  lemma ClaimsInOrderOfArrival(
    run: seq<System>, steps: seq<Step>, k: nat, n: nat, t: JobType, skipLocked: set<int>, id: int, earlier: int)
    requires IsRun(run, steps, k) && n < |run| && IsOldestClaimable(run[n].db, t, skipLocked, id)
    requires earlier in run[n].db.jobs && earlier !in skipLocked && Claimable(run[n].db, run[n].db.jobs[earlier], t)
    requires earlier < id
    ensures run[n].db.jobs[earlier].createdAt == run[n].db.jobs[id].createdAt
  {
    JobLeases.JobsArriveInOrder(run, steps, k, n, earlier, id);
  }

  // From a claim on, at any later time, the lease holds up to its expiry; only after it can the
  // job be claimed again, and only while attempts are left. Never both.
  lemma LeaseOrClaimable(db: Db, id: int, worker: string, lockedUntil: int, later: int, t: JobType)
    requires id in db.jobs && Claimable(db, db.jobs[id], t)
    ensures var db' := Claim(db, id, worker, lockedUntil).(now := later);
      && (LeaseHolds(db', id, worker) <==> later <= lockedUntil)
      && (Claimable(db', db'.jobs[id], t) <==> lockedUntil < later && db.jobs[id].attempts + 1 < MAX_ATTEMPTS)
  {
  }
}
