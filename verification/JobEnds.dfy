/** Which unended jobs can still become done or failed, and that some cannot. */
module JobEnds {
  import opened Constants
  import opened JobQueue
  import opened JobLeases
  import JobQuota
  import JobPipeline

  const SECONDS_PER_DAY := 24 * 60 * 60

  predicate HasEnded(job: Job) { job.state == Done || job.state == Failed }

  ghost predicate EndsOn(path: seq<System>, steps: seq<Step>, k: nat, s: System, id: int) {
    && IsPath(path, steps, k) && path[0] == s
    && id in path[|path| - 1].db.jobs && HasEnded(path[|path| - 1].db.jobs[id])
  }

  // Some continuation of the state ends the job.
  ghost predicate CanEnd(s: System, id: int, k: nat) {
    exists path: seq<System>, steps: seq<Step> :: EndsOn(path, steps, k, s, id)
  }

  predicate OfType(s: System, w: string, t: JobType) {
    w in s.asrWorkers <==> t == Asr
  }

  ghost predicate HasWorker(s: System, t: JobType) {
    exists w :: w in s.workers && OfType(s, w, t)
  }

  lemma EndedCanEnd(s: System, id: int, k: nat)
    requires id in s.db.jobs && HasEnded(s.db.jobs[id])
    ensures CanEnd(s, id, k)
  {
    assert EndsOn([s], [], k, s, id);
  }

  lemma StepThenEnd(s: System, step: Step, s': System, id: int, k: nat)
    requires Next(s, step, s', k) && CanEnd(s', id, k)
    ensures CanEnd(s, id, k)
  {
    hide Next, HasEnded;
    var path: seq<System>, steps: seq<Step> :| EndsOn(path, steps, k, s', id);
    var path', steps' := [s] + path, [step] + steps;
    forall i, j | 0 <= i < j < |path'| && j == i + 1 ensures Next(path'[i], steps'[i], path'[j], k) {
      assert i > 0 ==> Next(path[i - 1], steps[i - 1], path[j - 1], k);
    }
    assert EndsOn(path', steps', k, s, id);
  }

  // ---- Jobs that can end ----

  lemma DeciderCanEnd(s: System, id: int, w: string, k: nat)
    requires w in s.workers && s.workers[w].Failing? && s.workers[w].task.id == id && !s.workers[w].unlock
    requires Owned(s.db, id, w)
    ensures CanEnd(s, id, k)
  {
    var db' := Applied(Release(s.db, id, w, Failed, ""), s.db);
    var s' := s.(db := db', workers := s.workers[w := Working(s.workers[w].task)]);
    EndedCanEnd(s', id, k);
    StepThenEnd(s, WriteFail(w, ""), s', id, k);
  }

  lemma HolderCanEnd(s: System, id: int, w: string, k: nat)
    requires w in s.workers && s.workers[w].Working? && s.workers[w].task.id == id && Owned(s.db, id, w)
    ensures CanEnd(s, id, k)
  {
    var s' := s.(workers := s.workers[w := Failing(s.workers[w].task, false)]);
    DeciderCanEnd(s', id, w, k);
    StepThenEnd(s, ReadToFail(w, true), s', id, k);
  }

  lemma ClaimerCanEnd(s: System, id: int, w: string, k: nat)
    requires id in s.db.jobs && Claimable(s.db, s.db.jobs[id], s.db.jobs[id].jtype)
    requires w in s.workers && OfType(s, w, s.db.jobs[id].jtype)
    requires s.workers[w] == (if w in s.asrWorkers then QuotaChecked else Idle)
    ensures CanEnd(s, id, k)
  {
    var s' := s.(db := Claim(s.db, id, w, 0),
                 workers := s.workers[w := Working(Task(id, s.db.jobs[id].video, s.db.jobs[id].jtype))],
                 claims := s.claims[id := Claims(s, id) + [w]]);
    HolderCanEnd(s', id, w, k);
    StepThenEnd(s, ClaimJob(w, id, 0), s', id, k);
  }

  lemma IdleCanEnd(s: System, id: int, w: string, k: nat)
    requires id in s.db.jobs && Claimable(s.db, s.db.jobs[id], s.db.jobs[id].jtype)
    requires w in s.workers && OfType(s, w, s.db.jobs[id].jtype) && s.workers[w] == Idle
    requires Used(s.db, Today(s.db)) < DAILY_QUOTA_SECS
    ensures CanEnd(s, id, k)
  {
    if w in s.asrWorkers {
      var s' := s.(workers := s.workers[w := QuotaChecked]);
      ClaimerCanEnd(s', id, w, k);
      StepThenEnd(s, CheckQuota(w), s', id, k);
    } else {
      ClaimerCanEnd(s, id, w, k);
    }
  }

  // A time at which the lease has expired, on a day without charges.
  lemma QuietDay(s: System, id: int) returns (later: int)
    requires JobQuota.Charged(s.db, s.charges) && id in s.db.jobs && GoodLease(s, id)
    requires !HasEnded(s.db.jobs[id]) && s.db.jobs[id].attempts < MAX_ATTEMPTS
    ensures later >= s.db.now && Used(s.db, DayOf(later)) == 0
    ensures Claimable(s.db.(now := later), s.db.jobs[id], s.db.jobs[id].jtype)
  {
    hide JobQuota.Charged;
    var lease := s.db.jobs[id].lockedUntil;
    var expiry := if lease.Some? && lease.value > s.db.now then lease.value else s.db.now;
    later := expiry + SECONDS_PER_DAY;
    JobQuota.FutureIsUnused(s, DayOf(later));
  }

  lemma WorkerCanEnd(s: System, id: int, w: string, k: nat)
    requires JobQuota.Charged(s.db, s.charges) && id in s.db.jobs && GoodLease(s, id)
    requires !HasEnded(s.db.jobs[id]) && s.db.jobs[id].attempts < MAX_ATTEMPTS
    requires w in s.workers && OfType(s, w, s.db.jobs[id].jtype)
    ensures CanEnd(s, id, k)
  {
    var later := QuietDay(s, id);
    hide JobQuota.Charged, GoodLease, CanEnd, DayOf, Claimable, HasEnded, Processable, ActiveJobs, Owned, HasJob;
    hide CompleteFetch, CompleteAsr, CreateFetchJobIfAbsent, Claim, Release, Applied, ChargeFor, Claims;
    var idle := s.(workers := s.workers[w := Idle]);
    var rested := idle.(db := s.db.(now := later));
    IdleCanEnd(rested, id, w, k);
    StepThenEnd(idle, Tick(later), rested, id, k);
    StepThenEnd(s, Leave(w), idle, id, k);
  }

  lemma UnendedCanEnd(s: System, id: int, k: nat)
    requires Leased(s) && JobQuota.Charged(s.db, s.charges)
    requires id in s.db.jobs && !HasEnded(s.db.jobs[id]) && HasWorker(s, s.db.jobs[id].jtype) && !Abandoned(s, id)
    ensures CanEnd(s, id, k)
  {
    assert GoodLease(s, id);
    if s.db.jobs[id].attempts < MAX_ATTEMPTS {
      var w :| w in s.workers && OfType(s, w, s.db.jobs[id].jtype);
      WorkerCanEnd(s, id, w, k);
    } else {
      var w := s.db.jobs[id].lockedBy.value;
      assert w in s.workers && WorksOn(s.workers[w], id) && GoodDecision(s, w);
      if s.workers[w].Working? {
        HolderCanEnd(s, id, w, k);
      } else {
        DeciderCanEnd(s, id, w, k);
      }
    }
  }

  // ---- Jobs that cannot ----

  lemma WorkersStayAway(s: System, step: Step, s': System, k: nat, t: JobType)
    requires Next(s, step, s', k) && !HasWorker(s, t)
    ensures !HasWorker(s', t)
  {
    forall w | w in s'.workers ensures !OfType(s', w, t) {
      JobPipeline.OtherPhasesStay(s, step, s', k, w);
    }
  }

  lemma NextKeepsUnended(s: System, step: Step, s': System, k: nat, id: int)
    requires JobPipeline.Safe(s) && Next(s, step, s', k)
    requires id in s.db.jobs && !HasEnded(s.db.jobs[id]) && !HasWorker(s, s.db.jobs[id].jtype)
    ensures id in s'.db.jobs && !HasEnded(s'.db.jobs[id]) && !HasWorker(s', s'.db.jobs[id].jtype)
  {
    assert JobPipeline.GoodJob(s.db, id);
    EachJobMoves(s, step, s', k, id);
    JobPipeline.DbStaysGood(s, step, s', k);
    WorkersStayAway(s, step, s', k, s.db.jobs[id].jtype);
    hide Next, JobPipeline.GoodDb;
    if (step.ReportFetch? || step.ReportAsr? || step.WriteFail?) && step.worker in s.workers {
      assert JobPipeline.GoodPhase(s, step.worker) && !OfType(s, step.worker, s.db.jobs[id].jtype);
    }
  }

  lemma {:induction false} WithoutWorkerNeverEnds(path: seq<System>, steps: seq<Step>, k: nat, id: int, n: nat)
    requires IsPath(path, steps, k) && n < |path| && JobPipeline.Safe(path[0])
    requires id in path[0].db.jobs && !HasEnded(path[0].db.jobs[id]) && !HasWorker(path[0], path[0].db.jobs[id].jtype)
    ensures JobPipeline.Safe(path[n])
    ensures id in path[n].db.jobs && !HasEnded(path[n].db.jobs[id]) && !HasWorker(path[n], path[n].db.jobs[id].jtype)
  {
    hide Next, HasEnded, HasWorker, JobPipeline.Safe;
    if n > 0 {
      WithoutWorkerNeverEnds(path, steps, k, id, n - 1);
      assert Next(path[n - 1], steps[n - 1], path[n], k);
      JobPipeline.NextKeepsSafe(path[n - 1], steps[n - 1], path[n], k);
      NextKeepsUnended(path[n - 1], steps[n - 1], path[n], k, id);
    }
  }

  lemma AbandonedCannotEnd(s: System, id: int, k: nat)
    requires Reachable(s, k) && Abandoned(s, id)
    ensures !CanEnd(s, id, k)
  {
    hide Next;
    var run: seq<System>, steps: seq<Step> :| IsRun(run, steps, k) && run[|run| - 1] == s;
    EndsExactlyUnlessAbandoned(run, steps, k, |run| - 1, id);
  }

  // In every reachable state an unended job can still end if and only if there is a worker of its
  // type and the job is not abandoned.
  lemma EndsExactlyUnlessAbandoned(run: seq<System>, steps: seq<Step>, k: nat, i: nat, id: int)
    requires IsRun(run, steps, k) && i < |run|
    requires id in run[i].db.jobs && !HasEnded(run[i].db.jobs[id])
    ensures CanEnd(run[i], id, k) <==> HasWorker(run[i], run[i].db.jobs[id].jtype) && !Abandoned(run[i], id)
  {
    hide Next, Leased, HasWorker, JobPipeline.Safe, JobQuota.Charged;
    var s := run[i];
    RunIsLeased(run, steps, k, i);
    JobQuota.RunIsWithinLimit(run, steps, k, i);
    if HasWorker(s, s.db.jobs[id].jtype) && !Abandoned(s, id) {
      UnendedCanEnd(s, id, k);
    } else if CanEnd(s, id, k) {
      var path: seq<System>, more: seq<Step> :| EndsOn(path, more, k, s, id);
      if Abandoned(s, id) {
        AbandonedStays(path, more, k, id, |path| - 1);
      } else {
        WithoutWorkerNeverEnds(path, more, k, id, |path| - 1);
      }
    }
  }
}
