/** The bound on the job queue: counted in one query, filled in a later one. */
module JobAdmission {
  import opened JobQueue
  import opened Sets
  import JobPipeline
  import VadRestore

  ghost predicate Admitted(s: System, k: nat) {
    |ActiveJobs(s.db)| + |s.callers| <= MAX_QUEUE_SIZE - 1 + k
  }

  // Finishing a fetch retires one job and creates one.
  lemma CompletingFetchKeepsCount(db: Db, w: string, task: Task, blob: Blob)
    requires db.nextId !in db.jobs
    ensures |ActiveJobs(CompleteFetch(db, w, task.id, task.video, blob).db)| == |ActiveJobs(db)|
  {
    var done := CompleteFetch(db, w, task.id, task.video, blob);
    if done.ok {
      assert ActiveJobs(done.db) == ActiveJobs(db) - {task.id} + {db.nextId};
    } else {
      assert ActiveJobs(done.db) == ActiveJobs(db);
    }
  }

  lemma CreatingAddsOne(db: Db, video: int)
    requires video in db.videos
    ensures |ActiveJobs(CreateFetchJobIfAbsent(db, video))| <= |ActiveJobs(db)| + 1
  {
    SubsetSize(ActiveJobs(CreateFetchJobIfAbsent(db, video)), ActiveJobs(db) + {db.nextId});
  }

  lemma OthersAddNone(db: Db, w: string, task: Task, model: string, words: seq<VadRestore.Word>, lockedUntil: int,
                      state: JobState, message: string)
    ensures |ActiveJobs(CompleteAsr(db, w, task.id, task.video, model, words).db)| <= |ActiveJobs(db)|
    ensures task.id in db.jobs && Claimable(db, db.jobs[task.id], task.t) ==>
      |ActiveJobs(Claim(db, task.id, w, lockedUntil))| <= |ActiveJobs(db)|
    ensures |ActiveJobs(Applied(Release(db, task.id, w, state, message), db))| <= |ActiveJobs(db)|
  {
    SubsetSize(ActiveJobs(CompleteAsr(db, w, task.id, task.video, model, words).db), ActiveJobs(db));
    SubsetSize(ActiveJobs(Applied(Release(db, task.id, w, state, message), db)), ActiveJobs(db));
    if task.id in db.jobs && Claimable(db, db.jobs[task.id], task.t) {
      SubsetSize(ActiveJobs(Claim(db, task.id, w, lockedUntil)), ActiveJobs(db));
    }
  }

  lemma NextKeepsAdmitted(s: System, step: Step, s': System, k: nat)
    requires s.db.nextId !in s.db.jobs && Admitted(s, k) && Next(s, step, s', k)
    ensures Admitted(s', k)
  {
    hide ActiveJobs, CompleteFetch, CompleteAsr, CreateFetchJobIfAbsent, Claim, Release, Applied, Processable;
    hide Claimable, Owned, Used, Today, ChargeFor, Claims;
    match step
    case CreateFetch(caller) =>
      CreatingAddsOne(s.db, s.callers[caller]);
    case GiveUpRequest(caller) =>
      SubsetSize(s'.callers.Keys, s.callers.Keys);
    case ReportFetch(w, blob) =>
      CompletingFetchKeepsCount(s.db, w, s.workers[w].task, blob);
    case ReportAsr(w, model, words) =>
      OthersAddNone(s.db, w, s.workers[w].task, model, words, 0, Pending, "");
    case ClaimJob(w, id, lockedUntil) =>
      OthersAddNone(s.db, w, Task(id, 0, if w in s.asrWorkers then Asr else Fetch), "", [], lockedUntil, Pending, "");
    case WriteFail(w, message) =>
      OthersAddNone(s.db, w, s.workers[w].task, "", [], 0, if s.workers[w].unlock then Pending else Failed, message);
    case BuildSentences(_, _) =>
      SameJobs(s.db, s'.db);
    case Tick(_) =>
      SameJobs(s.db, s'.db);
    case _ =>
  }

  lemma SameJobs(db: Db, db': Db)
    requires db'.jobs == db.jobs
    ensures ActiveJobs(db') == ActiveJobs(db)
  {
  }

  lemma {:induction false} RunIsAdmitted(run: seq<System>, steps: seq<Step>, k: nat, i: nat)
    requires IsRun(run, steps, k) && i < |run|
    ensures Admitted(run[i], k)
  {
    if i > 0 {
      hide Next;
      RunIsAdmitted(run, steps, k, i - 1);
      JobPipeline.RunIsSafe(run, steps, k, i - 1);
      JobPipeline.NextIdIsFree(run[i - 1].db);
      assert Next(run[i - 1], steps[i - 1], run[i], k);
      NextKeepsAdmitted(run[i - 1], steps[i - 1], run[i], k);
    }
  }

  // With at most k requests between counting and inserting, the queue never grows past four plus k.
  lemma QueueIsBounded(run: seq<System>, steps: seq<Step>, k: nat, i: nat)
    requires IsRun(run, steps, k) && i < |run|
    ensures var jobs := run[i].db.jobs;
      |set id | id in jobs && (jobs[id].state == Pending || jobs[id].state == Running)| + |run[i].callers| <= 4 + k
  {
    RunIsAdmitted(run, steps, k, i);
    var jobs := run[i].db.jobs;
    var active := set id | id in jobs && (jobs[id].state == Pending || jobs[id].state == Running);
    assert forall id :: id in active ==> id in ActiveJobs(run[i].db);
    SubsetSize(active, ActiveJobs(run[i].db));
  }
}
