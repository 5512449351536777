/**
 * The pipeline of a video: at most one job per type, and the recognition job, the audio and the
 * finished fetch job exist together, in every run.
 */
module JobPipeline {
  import opened Wrappers
  import opened JobQueue
  import VadRestore

  ghost predicate FetchDone(db: Db, id: int, video: int) {
    IsJob(db, id, video, Fetch) && db.jobs[id].state == Done
  }

  // The fetch job that created a recognition job.
  ghost predicate Feeds(db: Db, i: int, j: int)
    requires j in db.jobs
  {
    FetchDone(db, i, db.jobs[j].video) && i < j && db.jobs[i].online == db.jobs[j].online
  }

  ghost predicate Transcribed(db: Db, video: int) {
    exists model :: TranscriptionKey(video, model) in db.transcriptions
  }

  ghost predicate Unique(db: Db) {
    forall i, j :: i in db.jobs && j in db.jobs && i != j ==>
      db.jobs[i].video != db.jobs[j].video || db.jobs[i].jtype != db.jobs[j].jtype
  }

  ghost predicate FetchHandsOver(db: Db, id: int)
    requires id in db.jobs
  {
    var job := db.jobs[id];
    job.jtype == Fetch && job.state == Done ==>
      job.video in db.blobs && HasJob(db, job.video, Asr)
  }

  ghost predicate AsrIsFed(db: Db, id: int)
    requires id in db.jobs
  {
    var job := db.jobs[id];
    job.jtype == Asr ==>
      job.video in db.blobs && (job.state == Done ==> Transcribed(db, job.video)) && exists i :: Feeds(db, i, id)
  }

  ghost predicate GoodJob(db: Db, id: int)
    requires id in db.jobs
  {
    var job := db.jobs[id];
    && id < db.nextId
    && Processable(db, job.video) && job.online == db.videos[job.video].online
    && FetchHandsOver(db, id) && AsrIsFed(db, id)
  }

  ghost predicate GoodDb(db: Db) {
    && Unique(db)
    && (forall id :: id in db.jobs ==> GoodJob(db, id))
    && (forall v :: v in db.blobs ==> exists i :: FetchDone(db, i, v))
  }

  ghost predicate GoodTask(db: Db, task: Task) {
    IsJob(db, task.id, task.video, task.t)
  }

  ghost predicate GoodPhase(s: System, worker: string)
    requires worker in s.workers
  {
    var phase := s.workers[worker];
    && (phase.QuotaChecked? ==> worker in s.asrWorkers)
    && (phase.Working? || phase.Failing? ==>
          GoodTask(s.db, phase.task) && (worker in s.asrWorkers <==> phase.task.t == Asr))
  }

  ghost predicate Safe(s: System) {
    && GoodDb(s.db)
    && (forall w :: w in s.workers ==> GoodPhase(s, w))
    && (forall c :: c in s.callers ==> Processable(s.db, s.callers[c]))
  }

  // ---- Each change of the tables keeps them good ----

  // Jobs stay, with their identity; videos stay.
  ghost predicate Extends(db: Db, db': Db) {
    && db'.videos == db.videos && db'.nextId >= db.nextId
    && forall id :: id in db.jobs ==>
         && id in db'.jobs && db'.jobs[id].video == db.jobs[id].video
         && db'.jobs[id].jtype == db.jobs[id].jtype && db'.jobs[id].online == db.jobs[id].online
  }

  lemma NextIdIsFree(db: Db)
    requires GoodDb(db)
    ensures db.nextId !in db.jobs
  {
    assert db.nextId in db.jobs ==> GoodJob(db, db.nextId);
  }

  // One job changes, without becoming done or ceasing to be.
  ghost predicate Relocks(db: Db, db': Db, id: int) {
    && id in db.jobs && id in db'.jobs && Extends(db, db')
    && db'.jobs == db.jobs[id := db'.jobs[id]] && db'.blobs == db.blobs && db'.transcriptions == db.transcriptions
    && db.jobs[id].state != Done && db'.jobs[id].state != Done
  }

  lemma RelocksKeeps(db: Db, db': Db, id: int)
    requires GoodDb(db) && Relocks(db, db', id)
    ensures GoodDb(db')
  {
    forall i | i in db'.jobs ensures GoodJob(db', i) {
      JobKept(db, db', i);
    }
    forall v | v in db'.blobs ensures exists i :: FetchDone(db', i, v) {
      var i :| FetchDone(db, i, v);
      assert FetchDone(db', i, v);
    }
  }

  // What makes a job good stays true when fetch jobs stay done and no audio or transcription is lost.
  lemma JobKept(db: Db, db': Db, id: int)
    requires id in db.jobs && GoodJob(db, id) && Extends(db, db')
    requires db.blobs.Keys <= db'.blobs.Keys && db.transcriptions.Keys <= db'.transcriptions.Keys
    requires forall i, v :: FetchDone(db, i, v) ==> FetchDone(db', i, v)
    requires db'.jobs[id].state == Done ==> db.jobs[id].state == Done
    ensures GoodJob(db', id)
  {
    var job := db.jobs[id];
    if job.jtype == Asr {
      var i :| Feeds(db, i, id);
      assert FetchDone(db, i, job.video) && FetchDone(db', i, job.video);
      assert Feeds(db', i, id);
      if job.state == Done {
        var model :| TranscriptionKey(job.video, model) in db.transcriptions;
        assert TranscriptionKey(job.video, model) in db'.transcriptions;
      }
    } else if job.state == Done {
      var j :| j in db.jobs && IsJob(db, j, job.video, Asr);
      assert IsJob(db', j, job.video, Asr);
    }
  }

  // A recognition job and stored audio each tell that the fetch job of the video is done.
  lemma LaterStagesMeanFetchDone(db: Db, id: int, video: int)
    requires GoodDb(db) && IsJob(db, id, video, Fetch)
    ensures HasJob(db, video, Asr) || video in db.blobs ==> db.jobs[id].state == Done
  {
    if HasJob(db, video, Asr) {
      var j :| j in db.jobs && IsJob(db, j, video, Asr);
      assert GoodJob(db, j);
      var i :| Feeds(db, i, j);
    } else if video in db.blobs {
      var i :| FetchDone(db, i, video);
    }
  }

  lemma AsrIsLater(db: Db, i: int, j: int, video: int)
    requires GoodDb(db) && IsJob(db, i, video, Fetch) && IsJob(db, j, video, Asr)
    ensures i < j
  {
    assert GoodJob(db, j);
    var f :| Feeds(db, f, j);
  }

  // Reporting the fetched audio succeeds exactly when the worker still holds the job: no stored
  // audio and no recognition job can be in the way. Otherwise nothing changes.
  lemma ReportingFetchSucceedsExactly(db: Db, worker: string, task: Task, blob: Blob)
    requires GoodDb(db) && GoodTask(db, task) && task.t == Fetch
    ensures CompleteFetch(db, worker, task.id, task.video, blob).ok <==> Owned(db, task.id, worker)
    ensures !Owned(db, task.id, worker) ==> CompleteFetch(db, worker, task.id, task.video, blob).db == db
    ensures Owned(db, task.id, worker) ==>
      task.video !in db.blobs
      && CompleteFetch(db, worker, task.id, task.video, blob).db.blobs == db.blobs[task.video := blob]
  {
    assert GoodJob(db, task.id);
    if Owned(db, task.id, worker) {
      LaterStagesMeanFetchDone(db, task.id, task.video);
      var db1 := MarkJobDone(db.(blobs := db.blobs[task.video := blob]), task.id, Fetch, worker).value;
      assert forall j :: IsJob(db1, j, task.video, Asr) ==> IsJob(db, j, task.video, Asr);
    }
  }

  lemma CompleteFetchKeeps(db: Db, worker: string, task: Task, blob: Blob)
    requires GoodDb(db) && GoodTask(db, task) && task.t == Fetch
    ensures var db' := CompleteFetch(db, worker, task.id, task.video, blob).db; GoodDb(db') && Extends(db, db')
  {
    ReportingFetchSucceedsExactly(db, worker, task, blob);
    if Owned(db, task.id, worker) {
      LaterStagesMeanFetchDone(db, task.id, task.video);
      FetchHandover(db, CompleteFetch(db, worker, task.id, task.video, blob).db, task, blob);
    }
  }

  ghost predicate HandsOver(db: Db, db': Db, task: Task, blob: Blob) {
    && GoodTask(db, task) && task.t == Fetch
    && !HasJob(db, task.video, Asr) && task.video !in db.blobs
    && var job := db.jobs[task.id];
       db' == db.(blobs := db.blobs[task.video := blob], nextId := db.nextId + 1,
                  jobs := db.jobs[task.id := job.(state := Done, lastError := None)]
                                 [db.nextId := NewJob(task.video, Asr, job.online, db.now)])
  }

  lemma HandoverKeepsFetches(db: Db, db': Db, task: Task, blob: Blob)
    requires GoodDb(db) && HandsOver(db, db', task, blob)
    ensures Extends(db, db') && Unique(db')
    ensures forall i, v :: FetchDone(db, i, v) ==> FetchDone(db', i, v)
    ensures FetchDone(db', task.id, task.video) && IsJob(db', db.nextId, task.video, Asr)
  {
    assert forall id :: id in db.jobs ==> GoodJob(db, id);
    assert forall id :: id in db.jobs ==> !IsJob(db, id, task.video, Asr);
  }

  lemma HandoverKeepsJob(db: Db, db': Db, task: Task, blob: Blob, id: int)
    requires GoodDb(db) && HandsOver(db, db', task, blob) && id in db'.jobs
    ensures GoodJob(db', id)
  {
    HandoverKeepsFetches(db, db', task, blob);
    assert GoodJob(db, task.id);
    if id == db.nextId {
      assert Feeds(db', task.id, id);
    } else if id != task.id {
      assert GoodJob(db, id);
      JobKept(db, db', id);
    }
  }

  lemma FetchHandover(db: Db, db': Db, task: Task, blob: Blob)
    requires GoodDb(db) && HandsOver(db, db', task, blob)
    ensures GoodDb(db') && Extends(db, db')
  {
    hide GoodJob;
    HandoverKeepsFetches(db, db', task, blob);
    forall id | id in db'.jobs ensures GoodJob(db', id) {
      HandoverKeepsJob(db, db', task, blob, id);
    }
    forall v | v in db'.blobs ensures exists i :: FetchDone(db', i, v) {
      if v in db.blobs {
        var i :| FetchDone(db, i, v);
        assert FetchDone(db', i, v);
      }
    }
  }

  // Jobs and fetches stay as they were, except that new jobs and one changed job need a look of their own.
  lemma OthersKept(db: Db, db': Db, changed: set<int>)
    requires GoodDb(db) && Extends(db, db') && Unique(db')
    requires db'.blobs == db.blobs && db.transcriptions.Keys <= db'.transcriptions.Keys
    requires forall id :: id in db'.jobs && id !in changed ==> id in db.jobs && db'.jobs[id] == db.jobs[id]
    requires forall id :: id in changed && id in db.jobs ==> db.jobs[id].jtype == Asr
    requires forall id :: id in changed && id in db'.jobs ==> GoodJob(db', id)
    ensures GoodDb(db')
  {
    forall id | id in db'.jobs ensures GoodJob(db', id) {
      if id !in changed {
        JobKept(db, db', id);
      }
    }
    forall v | v in db'.blobs ensures exists i :: FetchDone(db', i, v) {
      var i :| FetchDone(db, i, v);
      assert FetchDone(db', i, v);
    }
  }

  lemma CompleteAsrKeeps(db: Db, worker: string, task: Task, model: string, words: seq<VadRestore.Word>)
    requires GoodDb(db) && GoodTask(db, task) && task.t == Asr
    ensures var db' := CompleteAsr(db, worker, task.id, task.video, model, words).db; GoodDb(db') && Extends(db, db')
  {
    var done := CompleteAsr(db, worker, task.id, task.video, model, words);
    if done.ok {
      var db' := done.db;
      assert GoodJob(db, task.id);
      assert TranscriptionKey(task.video, model) in db'.transcriptions;
      var i :| Feeds(db, i, task.id);
      assert FetchDone(db', i, task.video) && Feeds(db', i, task.id);
      OthersKept(db, db', {task.id});
    }
  }

  // The server trusts the reported video: storing under another one than the job's always breaks the tables.
  lemma MismatchedReportBreaksExactly(db: Db, worker: string, id: int, video: int, blob: Blob)
    requires GoodDb(db) && id in db.jobs && CompleteFetch(db, worker, id, video, blob).ok
    ensures GoodDb(CompleteFetch(db, worker, id, video, blob).db) <==> video == db.jobs[id].video
  {
    var db' := CompleteFetch(db, worker, id, video, blob).db;
    if video == db.jobs[id].video {
      CompleteFetchKeeps(db, worker, Task(id, video, Fetch), blob);
    } else {
      forall i ensures !FetchDone(db', i, video) {
        assert i in db.jobs ==> GoodJob(db, i);
      }
      assert video in db'.blobs;
    }
  }

  // Reporting a transcription succeeds exactly when the worker still holds the job and the words fit the table.
  lemma ReportingAsrSucceedsExactly(db: Db, worker: string, task: Task, model: string, words: seq<VadRestore.Word>)
    requires GoodDb(db) && GoodTask(db, task) && task.t == Asr
    ensures CompleteAsr(db, worker, task.id, task.video, model, words).ok
            <==> Owned(db, task.id, worker) && Storable(words)
    ensures !CompleteAsr(db, worker, task.id, task.video, model, words).ok ==>
      CompleteAsr(db, worker, task.id, task.video, model, words).db == db
    ensures var done := CompleteAsr(db, worker, task.id, task.video, model, words);
      var key := TranscriptionKey(task.video, model);
      done.ok ==>
        done.db.transcriptions == db.transcriptions[key := words] && key !in done.db.sentences
        && forall other :: other in db.sentences && other != key ==>
             other in done.db.sentences && done.db.sentences[other] == db.sentences[other]
  {
    assert GoodJob(db, task.id);
  }

  lemma NewFetchIsUnique(db: Db, video: int)
    requires GoodDb(db) && Processable(db, video) && !HasJob(db, video, Fetch)
    ensures var db' := CreateFetchJobIfAbsent(db, video);
      db' == db.(nextId := db.nextId + 1,
                 jobs := db.jobs[db.nextId := NewJob(video, Fetch, db.videos[video].online, db.now)])
      && Unique(db') && Extends(db, db')
  {
    NextIdIsFree(db);
    hide GoodJob;
    assert forall id :: id in db.jobs ==> !IsJob(db, id, video, Fetch);
  }

  lemma CreateFetchKeeps(db: Db, video: int)
    requires GoodDb(db) && Processable(db, video)
    ensures var db' := CreateFetchJobIfAbsent(db, video); GoodDb(db') && Extends(db, db')
  {
    if HasJob(db, video, Fetch) {
      SkippedIdKeeps(db);
    } else {
      NewFetchIsUnique(db, video);
      NextIdIsFree(db);
      hide CreateFetchJobIfAbsent, GoodDb, Unique;
      OthersKept(db, CreateFetchJobIfAbsent(db, video), {db.nextId});
    }
  }

  lemma SkippedIdKeeps(db: Db)
    requires GoodDb(db)
    ensures GoodDb(SkipId(db)) && Extends(db, SkipId(db))
  {
    OthersKept(db, SkipId(db), {});
  }

  lemma ClaimKeeps(db: Db, id: int, worker: string, lockedUntil: int, t: JobType)
    requires GoodDb(db) && id in db.jobs && Claimable(db, db.jobs[id], t)
    ensures var db' := Claim(db, id, worker, lockedUntil); GoodDb(db') && Extends(db, db')
  {
    RelocksKeeps(db, Claim(db, id, worker, lockedUntil), id);
  }

  lemma ReleaseKeeps(db: Db, id: int, worker: string, state: JobState, message: string)
    requires GoodDb(db) && state != Done
    ensures var db' := Applied(Release(db, id, worker, state, message), db); GoodDb(db') && Extends(db, db')
  {
    if Owned(db, id, worker) {
      RelocksKeeps(db, Applied(Release(db, id, worker, state, message), db), id);
    }
  }

  lemma SameJobsKeep(db: Db, db': Db)
    requires GoodDb(db) && db' == db.(sentences := db'.sentences, now := db'.now)
    ensures GoodDb(db') && Extends(db, db')
  {
    OthersKept(db, db', {});
  }

  // ---- Steps and runs ----

  lemma DbStaysGood(s: System, step: Step, s': System, k: nat)
    requires Safe(s) && Next(s, step, s', k)
    ensures GoodDb(s'.db) && Extends(s.db, s'.db)
  {
    hide GoodDb, Claim, Release, CompleteFetch, CompleteAsr, CreateFetchJobIfAbsent;
    match step
    case CreateFetch(caller) =>
      CreateFetchKeeps(s.db, s.callers[caller]);
    case ClaimJob(w, id, lockedUntil) =>
      ClaimKeeps(s.db, id, w, lockedUntil, if w in s.asrWorkers then Asr else Fetch);
    case ReportFetch(w, blob) =>
      assert GoodPhase(s, w);
      CompleteFetchKeeps(s.db, w, s.workers[w].task, blob);
    case ReportAsr(w, model, words) =>
      assert GoodPhase(s, w);
      CompleteAsrKeeps(s.db, w, s.workers[w].task, model, words);
    case WriteFail(w, message) =>
      ReleaseKeeps(s.db, s.workers[w].task.id, w, if s.workers[w].unlock then Pending else Failed, message);
    case BuildSentences(_, _) =>
      SameJobsKeep(s.db, s'.db);
    case Tick(_) =>
      SameJobsKeep(s.db, s'.db);
    case _ =>
      assert s'.db == s.db;
  }

  // A phase is moved only by its own worker.
  lemma OtherPhasesStay(s: System, step: Step, s': System, k: nat, w: string)
    requires Next(s, step, s', k) && w in s'.workers
    ensures w in s.workers && s'.asrWorkers == s.asrWorkers
    ensures s'.workers[w] == s.workers[w]
            || ((step.CheckQuota? || step.ClaimJob? || step.ReadToFail? || step.WriteFail? || step.Leave?)
                && step.worker == w)
  {
    hide CompleteFetch, CompleteAsr, CreateFetchJobIfAbsent, Claim, Release, Applied;
    hide Claimable, Processable, ActiveJobs, Owned, Used, Today, ChargeFor, Claims;
  }

  lemma PhaseStaysGood(s: System, step: Step, s': System, k: nat, w: string)
    requires Safe(s) && Next(s, step, s', k) && Extends(s.db, s'.db)
    requires w in s'.workers
    ensures GoodPhase(s', w)
  {
    OtherPhasesStay(s, step, s', k, w);
    assert GoodPhase(s, w);
    hide Safe;
    if s'.workers[w] != s.workers[w] {
      NewPhaseIsGood(s, step, s', k, w);
    }
    hide Next;
  }

  lemma NewPhaseIsGood(s: System, step: Step, s': System, k: nat, w: string)
    requires Next(s, step, s', k) && Extends(s.db, s'.db) && w in s.workers && w in s'.workers && GoodPhase(s, w)
    requires (step.CheckQuota? || step.ClaimJob? || step.ReadToFail? || step.WriteFail? || step.Leave?)
             && step.worker == w
    ensures GoodPhase(s', w)
  {
    hide Claim, Release, CompleteFetch, CompleteAsr, CreateFetchJobIfAbsent, Processable, Applied;
    hide ActiveJobs, Owned, Used, Today, ChargeFor, Claims;
    match step
    case ClaimJob(_, id, _) => assert s'.workers[w] == Working(Task(id, s.db.jobs[id].video, s.db.jobs[id].jtype));
    case _ =>
  }

  lemma NextKeepsSafe(s: System, step: Step, s': System, k: nat)
    requires Safe(s) && Next(s, step, s', k)
    ensures Safe(s')
  {
    hide GoodDb, GoodPhase, Claim, Release, CompleteFetch, CompleteAsr, CreateFetchJobIfAbsent;
    DbStaysGood(s, step, s', k);
    forall w | w in s'.workers ensures GoodPhase(s', w) {
      PhaseStaysGood(s, step, s', k, w);
    }
  }

  lemma {:induction false} RunIsSafe(run: seq<System>, steps: seq<Step>, k: nat, i: nat)
    requires IsRun(run, steps, k) && i < |run|
    ensures Safe(run[i])
  {
    if i > 0 {
      RunIsSafe(run, steps, k, i - 1);
      assert Next(run[i - 1], steps[i - 1], run[i], k);
      NextKeepsSafe(run[i - 1], steps[i - 1], run[i], k);
    }
  }

  // In every reachable state: two jobs of a video differ in type, and these three exist together:
  // a finished fetch job, stored audio, a recognition job, the latter with the larger id.
  lemma StagesExistTogether(run: seq<System>, steps: seq<Step>, k: nat, n: nat, video: int)
    requires IsRun(run, steps, k) && n < |run|
    ensures var db := run[n].db;
      Unique(db)
      && (video in db.blobs <==> exists i :: FetchDone(db, i, video))
      && (video in db.blobs <==> HasJob(db, video, Asr))
      && (forall i, j :: IsJob(db, i, video, Fetch) && IsJob(db, j, video, Asr) ==> i < j && db.jobs[i].state == Done)
      && (forall j :: IsJob(db, j, video, Asr) && db.jobs[j].state == Done ==> Transcribed(db, video))
  {
    RunIsSafe(run, steps, k, n);
    var db := run[n].db;
    assert forall id :: id in db.jobs ==> GoodJob(db, id);
    forall i, j | IsJob(db, i, video, Fetch) && IsJob(db, j, video, Asr) ensures i < j && db.jobs[i].state == Done {
      AsrIsLater(db, i, j, video);
      LaterStagesMeanFetchDone(db, i, video);
    }
    if video in db.blobs {
      var i :| FetchDone(db, i, video);
      assert FetchHandsOver(db, i);
    }
    if HasJob(db, video, Asr) {
      var j :| j in db.jobs && IsJob(db, j, video, Asr);
      assert AsrIsFed(db, j);
    }
  }

  ghost predicate KeepsBlobs(db: Db, db': Db) {
    forall v :: v in db.blobs ==> v in db'.blobs && db'.blobs[v] == db.blobs[v]
  }

  lemma StatementsKeepBlobs(db: Db, id: int, video: int, w: string, lockedUntil: int, state: JobState, message: string)
    ensures video in db.videos ==> KeepsBlobs(db, CreateFetchJobIfAbsent(db, video))
    ensures id in db.jobs ==> KeepsBlobs(db, Claim(db, id, w, lockedUntil))
    ensures KeepsBlobs(db, Applied(Release(db, id, w, state, message), db))
  {
  }

  lemma TransactionsKeepBlobs(
    db: Db, w: string, id: int, video: int, blob: Blob, model: string, words: seq<VadRestore.Word>)
    ensures KeepsBlobs(db, CompleteFetch(db, w, id, video, blob).db)
    ensures KeepsBlobs(db, CompleteAsr(db, w, id, video, model, words).db)
  {
  }

  lemma NextKeepsBlobs(s: System, step: Step, s': System, k: nat)
    requires Next(s, step, s', k)
    ensures KeepsBlobs(s.db, s'.db)
  {
    hide CompleteFetch, CompleteAsr, CreateFetchJobIfAbsent, Claim, Release, Applied;
    hide Claimable, Processable, ActiveJobs, Owned, Used, Today, ChargeFor, Claims;
    match step
    case CreateFetch(caller) => StatementsKeepBlobs(s.db, 0, s.callers[caller], "", 0, Pending, "");
    case ClaimJob(w, id, lockedUntil) => StatementsKeepBlobs(s.db, id, 0, w, lockedUntil, Pending, "");
    case ReportFetch(w, blob) =>
      TransactionsKeepBlobs(s.db, w, s.workers[w].task.id, s.workers[w].task.video, blob, "", []);
    case ReportAsr(w, model, words) =>
      TransactionsKeepBlobs(s.db, w, s.workers[w].task.id, s.workers[w].task.video, Blob([], ""), model, words);
    case WriteFail(w, message) =>
      var state := if s.workers[w].unlock then Pending else Failed;
      StatementsKeepBlobs(s.db, s.workers[w].task.id, 0, w, 0, state, message);
    case _ =>
  }

  // Stored audio never changes, however often and by whomever it is reported again.
  lemma {:induction false} AudioIsFinal(run: seq<System>, steps: seq<Step>, k: nat, i: nat, n: nat, video: int)
    requires IsRun(run, steps, k) && i <= n < |run| && video in run[i].db.blobs
    ensures video in run[n].db.blobs && run[n].db.blobs[video] == run[i].db.blobs[video]
  {
    hide Next;
    if i < n {
      AudioIsFinal(run, steps, k, i, n - 1, video);
      assert Next(run[n - 1], steps[n - 1], run[n], k);
      NextKeepsBlobs(run[n - 1], steps[n - 1], run[n], k);
    }
  }
}
