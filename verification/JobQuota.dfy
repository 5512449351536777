/**
 * The daily quota of recognition seconds over whole runs: it is
 * checked in one query and used up in a later one.
 */
module JobQuota {
  import opened Constants
  import opened Sets
  import opened JobQueue
  import JobPipeline
  import JobLeases
  import VadRestore

  // A quota day lasts from one midnight to the next in a zone five hours ahead.
  lemma DayLastsFromMidnight(now: int, day: int)
    ensures DayOf(now) == day <==> 0 <= now + 5 * 3_600 - day * 86_400 < 86_400
  {
  }

  // What the charges of a day add up to.
  function Spent(charges: seq<Charge>, day: int): nat {
    if charges == [] then 0
    else
      var last := charges[|charges| - 1];
      Spent(charges[..|charges| - 1], day) + (if last.day == day then last.secs else 0)
  }

  ghost predicate AsrDone(db: Db, id: int) {
    id in db.jobs && db.jobs[id].jtype == Asr && db.jobs[id].state == Done
  }

  ghost predicate GoodCharge(db: Db, c: Charge) {
    && AsrDone(db, c.id) && db.jobs[c.id].video in db.videos && c.day <= Today(db)
    && c.secs == ChargedSecs(db.videos[db.jobs[c.id].video])
  }

  ghost predicate IsCharged(charges: seq<Charge>, id: int) {
    exists i :: 0 <= i < |charges| && charges[i].id == id
  }

  // Every finished recognition job is charged once, and the table holds the sums.
  ghost predicate Charged(db: Db, charges: seq<Charge>) {
    && (forall day :: Used(db, day) == Spent(charges, day))
    && (forall i :: 0 <= i < |charges| ==> GoodCharge(db, charges[i]))
    && (forall i, j :: 0 <= i < j < |charges| ==> charges[i].id != charges[j].id)
    && (forall id :: AsrDone(db, id) ==> IsCharged(charges, id))
  }

  // ---- Only reporting a transcription finishes recognition jobs and charges days ----

  ghost predicate FinishesNone(db: Db, db': Db) {
    db'.used == db.used && db'.now >= db.now && forall id :: AsrDone(db', id) <==> AsrDone(db, id)
  }

  lemma FetchFinishesNone(db: Db, w: string, task: Task, blob: Blob)
    requires db.nextId !in db.jobs
    ensures FinishesNone(db, CompleteFetch(db, w, task.id, task.video, blob).db)
  {
  }

  lemma CreatingFinishesNone(db: Db, video: int)
    requires db.nextId !in db.jobs && video in db.videos
    ensures FinishesNone(db, CreateFetchJobIfAbsent(db, video))
  {
  }

  lemma ClaimingFinishesNone(db: Db, id: int, w: string, lockedUntil: int)
    requires id in db.jobs && Claimable(db, db.jobs[id], db.jobs[id].jtype)
    ensures FinishesNone(db, Claim(db, id, w, lockedUntil))
  {
  }

  lemma ReleasingFinishesNone(db: Db, id: int, w: string, state: JobState, message: string)
    requires state != Done
    ensures FinishesNone(db, Applied(Release(db, id, w, state, message), db))
  {
  }

  lemma OtherStepsFinishNone(s: System, step: Step, s': System, k: nat)
    requires s.db.nextId !in s.db.jobs && Next(s, step, s', k) && !step.ReportAsr?
    ensures FinishesNone(s.db, s'.db) && s'.charges == s.charges
  {
    hide CompleteFetch, CreateFetchJobIfAbsent, Claim, Release, Applied, Processable, ActiveJobs;
    match step
    case CreateFetch(caller) => CreatingFinishesNone(s.db, s.callers[caller]);
    case ClaimJob(w, id, lockedUntil) => ClaimingFinishesNone(s.db, id, w, lockedUntil);
    case ReportFetch(w, blob) => FetchFinishesNone(s.db, w, s.workers[w].task, blob);
    case WriteFail(w, message) =>
      var state := if s.workers[w].unlock then Pending else Failed;
      ReleasingFinishesNone(s.db, s.workers[w].task.id, w, state, message);
    case _ =>
  }

  lemma NothingFinishedKeepsCharged(db: Db, db': Db, charges: seq<Charge>)
    requires Charged(db, charges) && FinishesNone(db, db') && JobPipeline.Extends(db, db')
    ensures Charged(db', charges)
  {
    hide Spent;
    assert forall day :: Used(db', day) == Used(db, day);
    forall i | 0 <= i < |charges| ensures GoodCharge(db', charges[i]) {
      ChargeStaysGood(db, db', charges[i]);
    }
  }

  // Table and history grow by the same charge.
  lemma FinishingIsCharged(
    db: Db, w: string, task: Task, model: string, words: seq<VadRestore.Word>, charges: seq<Charge>)
    requires Charged(db, charges) && JobPipeline.GoodDb(db) && JobPipeline.GoodTask(db, task) && task.t == Asr
    requires CompleteAsr(db, w, task.id, task.video, model, words).ok
    ensures Charged(CompleteAsr(db, w, task.id, task.video, model, words).db, charges + [ChargeFor(db, task)])
  {
    JobPipeline.CompleteAsrKeeps(db, w, task, model, words);
    FinishedTask(db, w, task, model, words);
    OneMoreCharged(db, CompleteAsr(db, w, task.id, task.video, model, words).db, charges, ChargeFor(db, task));
  }

  lemma {:induction false} SpentOneMore(charges: seq<Charge>, c: Charge, day: int)
    ensures Spent(charges + [c], day) == Spent(charges, day) + (if day == c.day then c.secs else 0)
  {
    assert (charges + [c])[..|charges|] == charges;
  }

  lemma ChargedIdsGrow(charges: seq<Charge>, c: Charge, id: int)
    requires id == c.id || IsCharged(charges, id)
    ensures IsCharged(charges + [c], id)
  {
    if id == c.id {
      assert (charges + [c])[|charges|].id == id;
    } else {
      var i :| 0 <= i < |charges| && charges[i].id == id;
      assert (charges + [c])[i].id == id;
    }
  }

  lemma ChargeStaysGood(db: Db, db': Db, c: Charge)
    requires GoodCharge(db, c) && JobPipeline.Extends(db, db') && db'.now >= db.now
    requires AsrDone(db', c.id)
    ensures GoodCharge(db', c)
  {
  }

  lemma OneMoreCharged(db: Db, db': Db, charges: seq<Charge>, c: Charge)
    requires Charged(db, charges) && JobPipeline.Extends(db, db') && db'.now == db.now
    requires !AsrDone(db, c.id) && GoodCharge(db', c)
    requires forall id :: AsrDone(db', id) <==> AsrDone(db, id) || id == c.id
    requires forall day :: Used(db', day) == Used(db, day) + (if day == c.day then c.secs else 0)
    ensures Charged(db', charges + [c])
  {
    hide Spent, Used, Today, AsrDone, IsCharged, JobPipeline.Extends;
    forall day ensures Used(db', day) == Spent(charges + [c], day) {
      SpentOneMore(charges, c, day);
    }
    forall i | 0 <= i < |charges| ensures GoodCharge(db', charges[i]) && charges[i].id != c.id {
      assert GoodCharge(db, charges[i]);
      ChargeStaysGood(db, db', charges[i]);
    }
    forall id | AsrDone(db', id) ensures IsCharged(charges + [c], id) {
      ChargedIdsGrow(charges, c, id);
    }
  }

  lemma FinishedTask(db: Db, w: string, task: Task, model: string, words: seq<VadRestore.Word>)
    requires JobPipeline.GoodTask(db, task) && task.t == Asr
    requires CompleteAsr(db, w, task.id, task.video, model, words).ok
    ensures var db', c := CompleteAsr(db, w, task.id, task.video, model, words).db, ChargeFor(db, task);
      && !AsrDone(db, task.id) && GoodCharge(db', c) && c.id == task.id && db'.now == db.now
      && (forall id :: AsrDone(db', id) <==> AsrDone(db, id) || id == task.id)
      && (forall day :: Used(db', day) == Used(db, day) + (if day == c.day then c.secs else 0))
  {
  }

  lemma NextKeepsCharged(s: System, step: Step, s': System, k: nat)
    requires JobPipeline.Safe(s) && Charged(s.db, s.charges) && Next(s, step, s', k)
    ensures Charged(s'.db, s'.charges)
  {
    hide CompleteAsr, CompleteFetch, Charged, JobPipeline.GoodDb;
    JobPipeline.DbStaysGood(s, step, s', k);
    if step.ReportAsr? {
      var w, task := step.worker, s.workers[step.worker].task;
      assert JobPipeline.GoodPhase(s, w);
      if CompleteAsr(s.db, w, task.id, task.video, step.model, step.words).ok {
        FinishingIsCharged(s.db, w, task, step.model, step.words, s.charges);
      } else {
        JobPipeline.ReportingAsrSucceedsExactly(s.db, w, task, step.model, step.words);
      }
    } else {
      JobPipeline.NextIdIsFree(s.db);
      OtherStepsFinishNone(s, step, s', k);
      NothingFinishedKeepsCharged(s.db, s'.db, s.charges);
    }
  }

  // ---- The check and the charge are apart ----

  // Recognition workers that may still charge: the quota was fine, or the job is still theirs.
  ghost function Spenders(s: System): set<string> {
    set w | w in s.workers && w in s.asrWorkers && MaySpend(s, w)
  }

  ghost predicate MaySpend(s: System, w: string)
    requires w in s.workers
  {
    match s.workers[w]
    case Idle => false
    case QuotaChecked => true
    case Working(task) => Owned(s.db, task.id, w)
    case Failing(task, _) => Owned(s.db, task.id, w)
  }

  function Limit(s: System): int { DAILY_QUOTA_SECS - 1 + MAX_DURATION_SECS * |s.asrWorkers| }

  ghost predicate WithinLimit(s: System) {
    && Used(s.db, Today(s.db)) + MAX_DURATION_SECS * |Spenders(s)| <= Limit(s)
    && (forall day :: Used(s.db, day) <= Limit(s))
  }

  lemma FewerSpenders(s: System, s': System)
    requires Spenders(s') <= Spenders(s)
    ensures MAX_DURATION_SECS * |Spenders(s')| <= MAX_DURATION_SECS * |Spenders(s)|
  {
    SubsetSize(Spenders(s'), Spenders(s));
  }

  lemma AtMostAllSpend(s: System)
    ensures MAX_DURATION_SECS * |Spenders(s)| <= MAX_DURATION_SECS * |s.asrWorkers|
  {
    SubsetSize(Spenders(s), s.asrWorkers);
  }

  // How a worker that is busy after a step got there.
  lemma SpenderArises(s: System, step: Step, s': System, k: nat, w: string)
    requires Next(s, step, s', k) && w in s'.workers && w in s'.asrWorkers && s'.workers[w] != Idle
    ensures w in s.workers && w in s.asrWorkers
    ensures (step.CheckQuota? && step.worker == w) || s.workers[w] == s'.workers[w] == QuotaChecked
            || (step.ClaimJob? && step.worker == w && s.workers[w] == QuotaChecked)
            || ((s.workers[w].Working? || s.workers[w].Failing?) && (s'.workers[w].Working? || s'.workers[w].Failing?)
                && s'.workers[w].task == s.workers[w].task)
  {
    JobPipeline.OtherPhasesStay(s, step, s', k, w);
    hide CompleteFetch, CompleteAsr, CreateFetchJobIfAbsent, Claim, Release, Applied;
    hide Claimable, Processable, ActiveJobs, Owned, Used, Today, ChargeFor, Claims;
    if s'.workers[w] == s.workers[w] {
      hide Next;
    }
  }

  // Nobody comes to hold a job except by claiming it.
  lemma HolderHeld(s: System, step: Step, s': System, k: nat, w: string, id: int)
    requires JobPipeline.Safe(s) && Next(s, step, s', k) && id in s.db.jobs && w in s.workers
    requires s.workers[w].Working? || s.workers[w].Failing?
    requires Owned(s'.db, id, w)
    ensures Owned(s.db, id, w)
  {
    assert JobPipeline.GoodJob(s.db, id);
    JobLeases.EachJobMoves(s, step, s', k, id);
    hide Next, JobPipeline.Safe;
  }

  lemma SpenderWas(s: System, step: Step, s': System, k: nat, w: string)
    requires JobPipeline.Safe(s) && Next(s, step, s', k) && w in Spenders(s')
    requires !(step.CheckQuota? && step.worker == w)
    ensures w in Spenders(s)
  {
    SpenderArises(s, step, s', k, w);
    if s.workers[w].Working? || s.workers[w].Failing? {
      assert JobPipeline.GoodPhase(s, w);
      HolderHeld(s, step, s', k, w, s.workers[w].task.id);
    }
  }

  lemma WorkersStay(s: System, step: Step, s': System, k: nat)
    requires Next(s, step, s', k)
    ensures s'.asrWorkers == s.asrWorkers
  {
    hide CompleteFetch, CompleteAsr, CreateFetchJobIfAbsent, Claim, Release, Claimable, Processable, ActiveJobs, Owned;
  }

  lemma SpendersShrink(s: System, step: Step, s': System, k: nat)
    requires JobPipeline.Safe(s) && Next(s, step, s', k) && !step.CheckQuota?
    ensures Spenders(s') <= Spenders(s)
  {
    hide Spenders, Next, JobPipeline.Safe;
    forall v | v in Spenders(s') ensures v in Spenders(s) {
      SpenderWas(s, step, s', k, v);
    }
  }

  // What a report charges, and that its worker is then through.
  lemma ReportUsesShare(s: System, step: Step, s': System, k: nat) returns (secs: nat)
    requires JobPipeline.Safe(s)
    requires Next(s, step, s', k) && step.ReportAsr? && s'.db != s.db
    ensures s'.db.now == s.db.now && step.worker in Spenders(s) && step.worker !in Spenders(s')
    ensures secs <= MAX_DURATION_SECS
    ensures forall day :: Used(s'.db, day) == Used(s.db, day) + (if day == Today(s.db) then secs else 0)
  {
    var w, task := step.worker, s.workers[step.worker].task;
    assert JobPipeline.GoodPhase(s, w);
    JobPipeline.ReportingAsrSucceedsExactly(s.db, w, task, step.model, step.words);
    FinishedTask(s.db, w, task, step.model, step.words);
    assert Processable(s.db, task.video) by {
      assert JobPipeline.GoodJob(s.db, task.id);
    }
    hide JobPipeline.Safe, CompleteAsr;
    secs := ChargeFor(s.db, task).secs;
  }

  lemma ReportAsrKeepsLimit(s: System, step: Step, s': System, k: nat)
    requires JobPipeline.Safe(s) && WithinLimit(s)
    requires Next(s, step, s', k) && step.ReportAsr? && s'.db != s.db
    ensures WithinLimit(s')
  {
    WorkersStay(s, step, s', k);
    SpendersShrink(s, step, s', k);
    var secs := ReportUsesShare(s, step, s', k);
    hide Next, Spenders, JobPipeline.Safe, Used;
    SubsetSize(Spenders(s'), Spenders(s) - {step.worker});
  }

  lemma CheckKeepsLimit(s: System, step: Step, s': System, k: nat)
    requires WithinLimit(s) && Next(s, step, s', k) && step.CheckQuota?
    ensures WithinLimit(s')
  {
    AtMostAllSpend(s');
  }

  // A new day starts with nothing charged.
  lemma IdleStepsKeepLimit(s: System, s': System)
    requires WithinLimit(s) && Charged(s.db, s.charges)
    requires s'.asrWorkers == s.asrWorkers && s'.db.used == s.db.used && s'.db.now >= s.db.now
    requires Spenders(s') <= Spenders(s)
    ensures WithinLimit(s')
  {
    hide Spenders, Spent;
    FewerSpenders(s, s');
    assert forall day :: Used(s'.db, day) == Used(s.db, day);
    if Today(s'.db) != Today(s.db) {
      AtMostAllSpend(s');
      FutureIsUnused(s, Today(s'.db));
    }
  }

  lemma FutureIsUnused(s: System, day: int)
    requires Charged(s.db, s.charges) && day > Today(s.db)
    ensures Used(s.db, day) == 0
  {
    SpentNothing(s.charges, day);
  }

  lemma {:induction false} SpentNothing(charges: seq<Charge>, day: int)
    requires forall i :: 0 <= i < |charges| ==> charges[i].day != day
    ensures Spent(charges, day) == 0
  {
    if charges != [] {
      SpentNothing(charges[..|charges| - 1], day);
    }
  }

  lemma NextKeepsWithinLimit(s: System, step: Step, s': System, k: nat)
    requires JobPipeline.Safe(s) && WithinLimit(s) && Charged(s.db, s.charges)
    requires Next(s, step, s', k)
    ensures WithinLimit(s')
  {
    if step.CheckQuota? {
      CheckKeepsLimit(s, step, s', k);
    } else if step.ReportAsr? && s'.db != s.db {
      ReportAsrKeepsLimit(s, step, s', k);
    } else {
      JobPipeline.NextIdIsFree(s.db);
      WorkersStay(s, step, s', k);
      SpendersShrink(s, step, s', k);
      hide Next, WithinLimit, Spenders;
      if !step.ReportAsr? {
        OtherStepsFinishNone(s, step, s', k);
      }
      IdleStepsKeepLimit(s, s');
    }
  }

  lemma InitIsWithinLimit(s: System)
    requires Init(s)
    ensures Charged(s.db, s.charges) && WithinLimit(s)
  {
    AtMostAllSpend(s);
    assert Spenders(s) == {};
  }

  lemma {:induction false} RunIsWithinLimit(run: seq<System>, steps: seq<Step>, k: nat, i: nat)
    requires IsRun(run, steps, k) && i < |run|
    ensures Charged(run[i].db, run[i].charges) && WithinLimit(run[i])
    ensures run[i].db.videos == run[0].db.videos && run[i].asrWorkers == run[0].asrWorkers
  {
    hide Next, Charged, WithinLimit, JobPipeline.Safe;
    if i == 0 {
      InitIsWithinLimit(run[0]);
    } else {
      RunIsWithinLimit(run, steps, k, i - 1);
      JobPipeline.RunIsSafe(run, steps, k, i - 1);
      var s, s' := run[i - 1], run[i];
      assert Next(s, steps[i - 1], s', k);
      JobPipeline.DbStaysGood(s, steps[i - 1], s', k);
      WorkersStay(s, steps[i - 1], s', k);
      NextKeepsCharged(s, steps[i - 1], s', k);
      NextKeepsWithinLimit(s, steps[i - 1], s', k);
    }
  }

  // ---- Main results ----

  // On no day do the charged seconds exceed what is left of the quota after one second, plus one
  // longest video per recognition worker.
  lemma QuotaIsNearlyKept(run: seq<System>, steps: seq<Step>, k: nat, i: nat, day: int)
    requires IsRun(run, steps, k) && i < |run|
    ensures Used(run[i].db, day) <= DAILY_QUOTA_SECS - 1 + |run[0].asrWorkers| * MAX_DURATION_SECS
  {
    RunIsWithinLimit(run, steps, k, i);
  }

  // The seconds of a day are the durations of the recognition jobs finished that day,
  // and every finished job is charged exactly once.
  lemma EveryFinishedJobIsChargedOnce(run: seq<System>, steps: seq<Step>, k: nat, i: nat)
    requires IsRun(run, steps, k) && i < |run|
    ensures var s := run[i];
      && (forall day :: Used(s.db, day) == Spent(s.charges, day))
      && (forall id :: AsrDone(s.db, id) <==> IsCharged(s.charges, id))
      && (forall a, b :: 0 <= a < b < |s.charges| ==> s.charges[a].id != s.charges[b].id)
      && (forall a :: 0 <= a < |s.charges| ==> GoodCharge(s.db, s.charges[a]))
  {
    RunIsWithinLimit(run, steps, k, i);
    hide Spent;
  }
}
