/**
 * Leases of jobs over whole runs: who may end a job, how often it is claimed, and why its
 * life is short.
 */
module JobLeases {
  import opened Wrappers
  import opened JobQueue
  import JobPipeline
  import VadRestore

  ghost predicate GoodLease(s: System, id: int)
    requires id in s.db.jobs
  {
    var job, claims := s.db.jobs[id], Claims(s, id);
    && job.attempts == |claims| <= MAX_ATTEMPTS
    && (match job.state
        case Pending => job.attempts < MAX_ATTEMPTS && job.lockedBy == None
        case Running => claims != [] && job.lockedBy == Some(claims[|claims| - 1]) && job.lockedUntil.Some?
        case Done => claims != [] && job.lockedBy == Some(claims[|claims| - 1])
        case Failed => claims != [] && job.lockedBy == None && job.lastError.Some?)
  }

  // A decision to unlock is still right when it takes effect.
  ghost predicate GoodDecision(s: System, w: string)
    requires w in s.workers
  {
    s.workers[w].Failing? && s.workers[w].unlock && Owned(s.db, s.workers[w].task.id, w) ==>
      s.db.jobs[s.workers[w].task.id].attempts < MAX_ATTEMPTS
  }

  ghost predicate Leased(s: System) {
    && (forall id :: id in s.claims ==> id in s.db.jobs)
    && (forall id :: id in s.db.jobs ==> id < s.db.nextId && GoodLease(s, id))
    && (forall w :: w in s.workers ==> GoodDecision(s, w))
  }

  // ---- What one step does to one job ----

  ghost predicate Unmoved(s: System, s': System, id: int) {
    && id in s.db.jobs && id in s'.db.jobs
    && s'.db.jobs[id] == s.db.jobs[id] && Claims(s', id) == Claims(s, id)
  }

  ghost predicate SameOrigin(job: Job, job': Job) {
    job'.video == job.video && job'.jtype == job.jtype && job'.online == job.online && job'.createdAt == job.createdAt
  }

  // A claimable job is leased to the worker for the given time.
  ghost predicate ClaimedBy(s: System, s': System, id: int, w: string, lockedUntil: int) {
    && id in s.db.jobs && id in s'.db.jobs && w in s.workers
    && var job, job' := s.db.jobs[id], s'.db.jobs[id];
       && Claimable(s.db, job, job.jtype) && (s.workers[w] == Idle || s.workers[w] == QuotaChecked)
       && job'.state == Running && job'.lockedBy == Some(w) && job'.lockedUntil == Some(lockedUntil)
       && job'.attempts == job.attempts + 1 && Claims(s', id) == Claims(s, id) + [w]
       && job'.lastError == job.lastError && SameOrigin(job, job')
  }

  // Only the worker whose lease it is ends a run of the job: unlocked or failed with the message, or done.
  ghost predicate EndedBy(s: System, step: Step, s': System, id: int, w: string) {
    && id in s'.db.jobs && w in s.workers && Owned(s.db, id, w)
    && var job, job', phase := s.db.jobs[id], s'.db.jobs[id], s.workers[w];
       && job'.attempts == job.attempts && Claims(s', id) == Claims(s, id) && SameOrigin(job, job')
       && (if step.WriteFail?
           then phase.Failing? && phase.task.id == id && job'.state == (if phase.unlock then Pending else Failed)
                && job'.lockedBy == None && job'.lockedUntil == None && job'.lastError == Some(step.message)
           else phase.Working? && phase.task.id == id && job'.state == Done
                && job'.lockedBy == job.lockedBy && job'.lockedUntil == job.lockedUntil && job'.lastError == None)
  }

  ghost predicate JobMoves(s: System, step: Step, s': System, id: int) {
    || Unmoved(s, s', id)
    || (step.ClaimJob? && step.id == id && ClaimedBy(s, s', id, step.worker, step.lockedUntil))
    || ((step.ReportFetch? || step.ReportAsr? || step.WriteFail?) && EndedBy(s, step, s', id, step.worker))
  }

  // A finished job keeps its lease columns.
  ghost predicate Finishes(db: Db, db': Db, id: int, w: string) {
    && Owned(db, id, w) && id in db'.jobs
    && db'.jobs[id] == db.jobs[id].(state := Done, lastError := None)
  }

  lemma FetchReportFinishesAtMost(db: Db, w: string, task: Task, blob: Blob, id: int)
    requires id in db.jobs && id < db.nextId
    ensures var db' := CompleteFetch(db, w, task.id, task.video, blob).db;
      id in db'.jobs && (db'.jobs[id] == db.jobs[id] || (task.id == id && Finishes(db, db', id, w)))
  {
  }

  lemma AsrReportFinishesAtMost(db: Db, w: string, task: Task, model: string, words: seq<VadRestore.Word>, id: int)
    requires id in db.jobs
    ensures var db' := CompleteAsr(db, w, task.id, task.video, model, words).db;
      id in db'.jobs && (db'.jobs[id] == db.jobs[id] || (task.id == id && Finishes(db, db', id, w)))
  {
  }

  lemma ClaimMoves(s: System, step: Step, s': System, k: nat, id: int)
    requires Next(s, step, s', k) && step.ClaimJob? && id in s.db.jobs
    ensures JobMoves(s, step, s', id)
  {
    assert if step.id == id then ClaimedBy(s, s', id, step.worker, step.lockedUntil) else Unmoved(s, s', id);
  }

  lemma ReportMoves(s: System, step: Step, s': System, k: nat, id: int)
    requires Next(s, step, s', k) && (step.ReportFetch? || step.ReportAsr?) && id in s.db.jobs && id < s.db.nextId
    ensures JobMoves(s, step, s', id)
  {
    hide CompleteFetch, CompleteAsr;
    var w := step.worker;
    if step.ReportFetch? {
      FetchReportFinishesAtMost(s.db, w, s.workers[w].task, step.blob, id);
    } else {
      AsrReportFinishesAtMost(s.db, w, s.workers[w].task, step.model, step.words, id);
    }
    assert if s'.db.jobs[id] == s.db.jobs[id] then Unmoved(s, s', id) else EndedBy(s, step, s', id, w);
  }

  lemma ReleaseMoves(db: Db, w: string, task: Task, state: JobState, message: string, id: int)
    requires id in db.jobs && (state == Pending || state == Failed)
    ensures var db' := Applied(Release(db, task.id, w, state, message), db);
      && id in db'.jobs
      && (db'.jobs[id] == db.jobs[id]
          || (task.id == id && Owned(db, id, w) && db'.jobs[id].state == state
              && db'.jobs[id].lockedBy == None && db'.jobs[id].lockedUntil == None
              && db'.jobs[id].attempts == db.jobs[id].attempts && db'.jobs[id].lastError == Some(message)
              && SameOrigin(db.jobs[id], db'.jobs[id])))
  {
  }

  lemma FailMoves(s: System, step: Step, s': System, k: nat, id: int)
    requires Next(s, step, s', k) && step.WriteFail? && id in s.db.jobs
    ensures JobMoves(s, step, s', id)
  {
    hide Release, Applied;
    var w := step.worker;
    ReleaseMoves(s.db, w, s.workers[w].task, if s.workers[w].unlock then Pending else Failed, step.message, id);
    assert if s'.db.jobs[id] == s.db.jobs[id] then Unmoved(s, s', id) else EndedBy(s, step, s', id, w);
  }

  lemma CreatingMovesNone(db: Db, video: int, id: int)
    requires video in db.videos && id in db.jobs && id < db.nextId
    ensures var db' := CreateFetchJobIfAbsent(db, video); id in db'.jobs && db'.jobs[id] == db.jobs[id]
  {
  }

  lemma EachJobMoves(s: System, step: Step, s': System, k: nat, id: int)
    requires Next(s, step, s', k) && id in s.db.jobs && id < s.db.nextId
    ensures JobMoves(s, step, s', id)
  {
    hide CompleteFetch, CompleteAsr, CreateFetchJobIfAbsent, Claim, Release, Applied, ClaimedBy, EndedBy;
    hide Claimable, Processable, ActiveJobs, Owned, Used, Today, ChargeFor;
    match step
    case CreateFetch(caller) => CreatingMovesNone(s.db, s.callers[caller], id);
    case ReportFetch(_, _) => ReportMoves(s, step, s', k, id);
    case ReportAsr(_, _, _) => ReportMoves(s, step, s', k, id);
    case ClaimJob(_, _, _) => ClaimMoves(s, step, s', k, id);
    case WriteFail(_, _) => FailMoves(s, step, s', k, id);
    case _ => assert Unmoved(s, s', id);
  }

  // ---- The lease invariant ----

  lemma OneJobStaysLeased(s: System, step: Step, s': System, k: nat, id: int)
    requires Leased(s) && Next(s, step, s', k) && id in s.db.jobs
    ensures id in s'.db.jobs && GoodLease(s', id)
  {
    EachJobMoves(s, step, s', k, id);
    assert GoodLease(s, id);
    hide Next, Leased;
    if !Unmoved(s, s', id) && !step.ClaimJob? {
      EndedIsLeased(s, step, s', id, step.worker);
    }
  }

  lemma EndedIsLeased(s: System, step: Step, s': System, id: int, w: string)
    requires Leased(s) && EndedBy(s, step, s', id, w)
    ensures GoodLease(s', id)
  {
    assert GoodLease(s, id) && GoodDecision(s, w);
  }

  // New jobs are pending and unclaimed.
  ghost predicate AddsFresh(db: Db, db': Db) {
    && db'.nextId >= db.nextId
    && forall id :: id in db'.jobs && id !in db.jobs ==>
         id == db.nextId < db'.nextId
         && db'.jobs[id].state == Pending && db'.jobs[id].attempts == 0 && db'.jobs[id].lockedBy == None
         && db'.jobs[id].lastError == None && db'.jobs[id].createdAt == db.now
  }

  lemma TransactionsAddFresh(db: Db, w: string, task: Task, blob: Blob, model: string, words: seq<VadRestore.Word>)
    ensures AddsFresh(db, CompleteFetch(db, w, task.id, task.video, blob).db)
    ensures AddsFresh(db, CompleteAsr(db, w, task.id, task.video, model, words).db)
  {
  }

  lemma StatementsAddFresh(db: Db, id: int, video: int, w: string, lockedUntil: int, state: JobState, message: string)
    ensures video in db.videos ==> AddsFresh(db, CreateFetchJobIfAbsent(db, video))
    ensures id in db.jobs ==> AddsFresh(db, Claim(db, id, w, lockedUntil))
    ensures AddsFresh(db, Applied(Release(db, id, w, state, message), db))
  {
  }

  lemma SameJobsAddFresh(db: Db, db': Db)
    requires db'.jobs == db.jobs && db'.nextId == db.nextId
    ensures AddsFresh(db, db')
  {
  }

  lemma NextAddsFresh(s: System, step: Step, s': System, k: nat)
    requires Next(s, step, s', k)
    ensures AddsFresh(s.db, s'.db)
  {
    hide CompleteFetch, CompleteAsr, CreateFetchJobIfAbsent, Claim, Release, Applied, AddsFresh;
    hide Claimable, Processable, ActiveJobs, Owned;
    match step
    case CreateFetch(caller) => StatementsAddFresh(s.db, 0, s.callers[caller], "", 0, Pending, "");
    case ClaimJob(w, id, lockedUntil) => StatementsAddFresh(s.db, id, 0, w, lockedUntil, Pending, "");
    case ReportFetch(w, blob) => TransactionsAddFresh(s.db, w, s.workers[w].task, blob, "", []);
    case ReportAsr(w, model, words) => TransactionsAddFresh(s.db, w, s.workers[w].task, Blob([], ""), model, words);
    case WriteFail(w, message) =>
      StatementsAddFresh(s.db, s.workers[w].task.id, 0, w, 0, if s.workers[w].unlock then Pending else Failed, message);
    case _ => SameJobsAddFresh(s.db, s'.db);
  }

  lemma OnlyClaimsAreRecorded(s: System, step: Step, s': System, k: nat, id: int)
    requires Next(s, step, s', k) && id in s'.claims
    ensures id in s.claims || id in s.db.jobs
  {
    hide CompleteFetch, CompleteAsr, CreateFetchJobIfAbsent, Claim, Release, Applied;
    hide Claimable, Processable, ActiveJobs, Owned;
  }

  lemma NewJobIsLeased(s: System, step: Step, s': System, k: nat, id: int)
    requires Leased(s) && Next(s, step, s', k) && id in s'.db.jobs && id !in s.db.jobs
    ensures GoodLease(s', id)
  {
    NextAddsFresh(s, step, s', k);
    assert id !in s'.claims by {
      if id in s'.claims {
        OnlyClaimsAreRecorded(s, step, s', k, id);
      }
    }
    hide Next;
  }

  // A worker is about to unlock because it just read the row, or because it was before.
  lemma DecisionArises(s: System, step: Step, s': System, k: nat, w: string)
    requires Next(s, step, s', k) && w in s'.workers && s'.workers[w].Failing?
    ensures w in s.workers
    ensures if step.ReadToFail? && step.worker == w && s'.workers[w] != s.workers[w]
            then s'.db == s.db && Owned(s.db, s'.workers[w].task.id, w)
                 && (s'.workers[w].unlock ==> s.db.jobs[s'.workers[w].task.id].attempts < MAX_ATTEMPTS)
            else s'.workers[w] == s.workers[w]
  {
    hide CompleteFetch, CompleteAsr, CreateFetchJobIfAbsent, Claim, Release, Claimable, Processable, ActiveJobs;
  }

  lemma KeptDecisionStaysGood(s: System, step: Step, s': System, w: string)
    requires w in s.workers && w in s'.workers && s.workers[w].Failing? && s'.workers[w] == s.workers[w]
    requires GoodDecision(s, w) && JobMoves(s, step, s', s.workers[w].task.id)
    ensures GoodDecision(s', w)
  {
  }

  lemma DecisionStaysGood(s: System, step: Step, s': System, k: nat, w: string)
    requires JobPipeline.Safe(s) && Leased(s) && Next(s, step, s', k) && w in s'.workers
    ensures GoodDecision(s', w)
  {
    if s'.workers[w].Failing? {
      DecisionArises(s, step, s', k, w);
      hide Next, GoodLease;
      if s'.workers[w] == s.workers[w] {
        var id := s.workers[w].task.id;
        assert GoodDecision(s, w) && JobPipeline.GoodPhase(s, w);
        EachJobMoves(s, step, s', k, id);
        hide JobPipeline.Safe, Leased;
        KeptDecisionStaysGood(s, step, s', w);
      }
    }
  }

  lemma NextKeepsLeased(s: System, step: Step, s': System, k: nat)
    requires JobPipeline.Safe(s) && Leased(s) && Next(s, step, s', k)
    ensures Leased(s')
  {
    hide Next, GoodLease, GoodDecision;
    NextAddsFresh(s, step, s', k);
    forall id | id in s.db.jobs ensures id in s'.db.jobs && GoodLease(s', id) {
      OneJobStaysLeased(s, step, s', k, id);
    }
    forall id | id in s'.db.jobs && id !in s.db.jobs ensures GoodLease(s', id) {
      NewJobIsLeased(s, step, s', k, id);
    }
    forall id | id in s'.claims ensures id in s'.db.jobs {
      OnlyClaimsAreRecorded(s, step, s', k, id);
    }
    forall w | w in s'.workers ensures GoodDecision(s', w) {
      DecisionStaysGood(s, step, s', k, w);
    }
  }

  lemma InitIsLeased(s: System)
    requires Init(s)
    ensures Leased(s)
  {
  }

  lemma {:induction false} RunIsLeased(run: seq<System>, steps: seq<Step>, k: nat, i: nat)
    requires IsRun(run, steps, k) && i < |run|
    ensures JobPipeline.Safe(run[i]) && Leased(run[i])
  {
    hide Next, Leased, JobPipeline.Safe;
    JobPipeline.RunIsSafe(run, steps, k, i);
    if i == 0 {
      InitIsLeased(run[0]);
    } else {
      RunIsLeased(run, steps, k, i - 1);
      assert Next(run[i - 1], steps[i - 1], run[i], k);
      NextKeepsLeased(run[i - 1], steps[i - 1], run[i], k);
    }
  }

  // ---- Main results ----

  // The attempts of a job are its claims, and never more than allowed.
  lemma AttemptsAreClaims(run: seq<System>, steps: seq<Step>, k: nat, i: nat, id: int)
    requires IsRun(run, steps, k) && i < |run| && id in run[i].db.jobs
    ensures run[i].db.jobs[id].attempts == |Claims(run[i], id)| <= MAX_ATTEMPTS
    ensures run[i].db.jobs[id].state == Pending ==> run[i].db.jobs[id].attempts < MAX_ATTEMPTS
  {
    RunIsLeased(run, steps, k, i);
    assert GoodLease(run[i], id);
  }

  // A report or a failure changes a job only if it comes from the worker that claimed it last,
  // while the job is running; it never touches the claims.
  lemma OnlyTheLatestClaimerActs(run: seq<System>, steps: seq<Step>, k: nat, i: nat, id: int)
    requires IsRun(run, steps, k) && i < |steps| && id in run[i].db.jobs
    requires steps[i].ReportFetch? || steps[i].ReportAsr? || steps[i].WriteFail?
    ensures id in run[i + 1].db.jobs
    ensures run[i + 1].db.jobs[id] != run[i].db.jobs[id] ==>
      run[i].db.jobs[id].state == Running && Claims(run[i], id) != []
      && Claims(run[i], id)[|Claims(run[i], id)| - 1] == steps[i].worker
      && run[i + 1].db.jobs[id].state != Running
  {
    RunIsLeased(run, steps, k, i);
    assert Next(run[i], steps[i], run[i + 1], k);
    EachJobMoves(run[i], steps[i], run[i + 1], k, id);
    assert GoodLease(run[i], id);
  }

  // Every change of a job spends some of this.
  function Budget(job: Job): int {
    2 * (MAX_ATTEMPTS - job.attempts) + (if job.state == Running then 1 else 0)
  }

  lemma StepSpendsBudget(s: System, step: Step, s': System, k: nat, id: int)
    requires Leased(s) && Next(s, step, s', k) && id in s.db.jobs
    ensures id in s'.db.jobs
    ensures s'.db.jobs[id] == s.db.jobs[id] || 0 <= Budget(s'.db.jobs[id]) < Budget(s.db.jobs[id])
    ensures s.db.jobs[id].state == Done || s.db.jobs[id].state == Failed ==> s'.db.jobs[id] == s.db.jobs[id]
  {
    OneJobStaysLeased(s, step, s', k, id);
    EachJobMoves(s, step, s', k, id);
    hide Next, CompleteFetch, CompleteAsr;
    assert GoodLease(s, id);
  }

  // How many of the first n steps of a run changed the job.
  ghost function Changes(run: seq<System>, id: int, n: nat): nat
    requires n < |run|
  {
    if n == 0 then 0
    else
      var before, after := run[n - 1].db.jobs, run[n].db.jobs;
      Changes(run, id, n - 1) + (if id in before && id in after && after[id] != before[id] then 1 else 0)
  }

  lemma {:induction false} ChangesFitBudget(run: seq<System>, steps: seq<Step>, k: nat, id: int, n: nat)
    requires IsRun(run, steps, k) && n < |run|
    ensures id in run[n].db.jobs ==> 0 <= Changes(run, id, n) + Budget(run[n].db.jobs[id]) <= 2 * MAX_ATTEMPTS
    ensures id !in run[n].db.jobs ==> Changes(run, id, n) == 0
  {
    hide Next, GoodLease;
    if n > 0 {
      ChangesFitBudget(run, steps, k, id, n - 1);
      RunIsLeased(run, steps, k, n - 1);
      assert Next(run[n - 1], steps[n - 1], run[n], k);
      if id in run[n - 1].db.jobs {
        StepSpendsBudget(run[n - 1], steps[n - 1], run[n], k, id);
      } else {
        NextAddsFresh(run[n - 1], steps[n - 1], run[n], k);
      }
    }
  }

  // However long a run, at most two changes per allowed attempt ever happen to a job.
  lemma {:induction false} JobLivesShort(run: seq<System>, steps: seq<Step>, k: nat, id: int, n: nat)
    requires IsRun(run, steps, k) && n < |run|
    ensures Changes(run, id, n) <= 2 * MAX_ATTEMPTS
  {
    ChangesFitBudget(run, steps, k, id, n);
    RunIsLeased(run, steps, k, n);
    if id in run[n].db.jobs {
      assert GoodLease(run[n], id);
    }
  }

  // Done and failed are never left.
  lemma {:induction false} EndsAreFinal(run: seq<System>, steps: seq<Step>, k: nat, id: int, i: nat, n: nat)
    requires IsRun(run, steps, k) && i <= n < |run|
    requires id in run[i].db.jobs && (run[i].db.jobs[id].state == Done || run[i].db.jobs[id].state == Failed)
    ensures id in run[n].db.jobs && run[n].db.jobs[id] == run[i].db.jobs[id]
  {
    hide Next, GoodLease;
    if i < n {
      EndsAreFinal(run, steps, k, id, i, n - 1);
      RunIsLeased(run, steps, k, n - 1);
      assert Next(run[n - 1], steps[n - 1], run[n], k);
      StepSpendsBudget(run[n - 1], steps[n - 1], run[n], k, id);
    }
  }

  // ---- Order of arrival ----

  // The time of creation is the time of the step that brought the job, and stays.
  lemma {:induction false} CreatedAtIsArrival(run: seq<System>, steps: seq<Step>, k: nat, n: nat, id: int)
    requires IsRun(run, steps, k) && n < |run| && id in run[n].db.jobs
    ensures exists m :: 0 <= m < n && id !in run[m].db.jobs && run[n].db.jobs[id].createdAt == run[m].db.now
                        && forall j :: m < j <= n ==> id in run[j].db.jobs
  {
    hide Next, GoodLease, GoodDecision, JobPipeline.Safe;
    if n > 0 {
      RunIsLeased(run, steps, k, n - 1);
      var s, s' := run[n - 1], run[n];
      assert Next(s, steps[n - 1], s', k);
      if id in s.db.jobs {
        CreatedAtIsArrival(run, steps, k, n - 1, id);
        EachJobMoves(s, steps[n - 1], s', k, id);
      } else {
        NextAddsFresh(s, steps[n - 1], s', k);
      }
    }
  }

  lemma TimePasses(s: System, step: Step, s': System, k: nat)
    requires Next(s, step, s', k)
    ensures s'.db.now >= s.db.now
  {
    hide Processable, ActiveJobs, Claimable, Owned, HasJob, Storable, Claims, ChargeFor;
  }

  // Jobs are numbered in the order of their creation.
  lemma {:induction false} JobsArriveInOrder(run: seq<System>, steps: seq<Step>, k: nat, n: nat, i: int, j: int)
    requires IsRun(run, steps, k) && n < |run| && i in run[n].db.jobs && j in run[n].db.jobs && i <= j
    ensures run[n].db.jobs[i].createdAt <= run[n].db.jobs[j].createdAt <= run[n].db.now
  {
    hide Next, GoodLease, GoodDecision, JobPipeline.Safe;
    if n > 0 {
      RunIsLeased(run, steps, k, n - 1);
      var s, step, s' := run[n - 1], steps[n - 1], run[n];
      assert Next(s, step, s', k);
      TimePasses(s, step, s', k);
      NextAddsFresh(s, step, s', k);
      if i in s.db.jobs {
        EachJobMoves(s, step, s', k, i);
        if j in s.db.jobs {
          EachJobMoves(s, step, s', k, j);
          JobsArriveInOrder(run, steps, k, n - 1, i, j);
        } else {
          JobsArriveInOrder(run, steps, k, n - 1, i, i);
        }
      }
    }
  }

  // ---- What the queue does not promise ----

  // The last attempt is running and its holder no longer works on it.
  ghost predicate Abandoned(s: System, id: int) {
    && id in s.db.jobs && s.db.jobs[id].state == Running && s.db.jobs[id].attempts == MAX_ATTEMPTS
    && s.db.jobs[id].lockedBy.Some?
    && var w := s.db.jobs[id].lockedBy.value;
       w in s.workers ==> !WorksOn(s.workers[w], id)
  }

  predicate WorksOn(phase: Phase, id: int) {
    (phase.Working? || phase.Failing?) && phase.task.id == id
  }

  lemma WorkBeginsWithClaim(s: System, step: Step, s': System, k: nat, w: string, id: int)
    requires Next(s, step, s', k) && w in s'.workers && WorksOn(s'.workers[w], id)
    ensures w in s.workers
    ensures WorksOn(s.workers[w], id) || (id in s.db.jobs && s.db.jobs[id].attempts < MAX_ATTEMPTS)
  {
    hide CompleteFetch, CompleteAsr, CreateFetchJobIfAbsent, Claim, Release, Processable, ActiveJobs;
  }

  lemma NextKeepsAbandoned(s: System, step: Step, s': System, k: nat, id: int)
    requires Leased(s) && Abandoned(s, id) && Next(s, step, s', k)
    ensures Abandoned(s', id) && s'.db.jobs[id] == s.db.jobs[id]
  {
    EachJobMoves(s, step, s', k, id);
    var w := s.db.jobs[id].lockedBy.value;
    if w in s'.workers && WorksOn(s'.workers[w], id) {
      WorkBeginsWithClaim(s, step, s', k, w, id);
    }
    hide Next, Leased;
  }

  lemma {:induction false} AbandonedStays(path: seq<System>, steps: seq<Step>, k: nat, id: int, n: nat)
    requires IsPath(path, steps, k) && n < |path|
    requires JobPipeline.Safe(path[0]) && Leased(path[0]) && Abandoned(path[0], id)
    ensures JobPipeline.Safe(path[n]) && Leased(path[n])
    ensures Abandoned(path[n], id) && path[n].db.jobs[id] == path[0].db.jobs[id]
  {
    hide Next, Leased, Abandoned, JobPipeline.Safe;
    if n > 0 {
      AbandonedStays(path, steps, k, id, n - 1);
      assert Next(path[n - 1], steps[n - 1], path[n], k);
      JobPipeline.NextKeepsSafe(path[n - 1], steps[n - 1], path[n], k);
      NextKeepsLeased(path[n - 1], steps[n - 1], path[n], k);
      NextKeepsAbandoned(path[n - 1], steps[n - 1], path[n], k, id);
    }
  }

  // A job whose holder gives up during its last attempt stays running for ever, expired or not:
  // nobody claims it again, and nobody else may end it.
  lemma AbandonedJobIsStuck(run: seq<System>, steps: seq<Step>, k: nat, id: int, i: nat, n: nat)
    requires IsRun(run, steps, k) && i <= n < |run| && Abandoned(run[i], id)
    ensures Abandoned(run[n], id) && run[n].db.jobs[id] == run[i].db.jobs[id]
  {
    hide Next, Leased, Abandoned, JobPipeline.Safe;
    RunIsLeased(run, steps, k, i);
    var path, rest := run[i..], steps[i..];
    forall a, b | 0 <= a < b < |path| && b == a + 1 ensures Next(path[a], rest[a], path[b], k) {
      assert Next(run[i + a], steps[i + a], run[i + b], k);
    }
    AbandonedStays(path, rest, k, id, n - i);
  }
}
