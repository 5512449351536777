/** The services on the job tables are steps of the protocol: what one call does, its steps do. */
module JobServices {
  import opened Constants
  import opened Wrappers
  import opened JobQueue
  import opened JobStore

  // A request for a video may count the queue exactly if the video has no obstacle and there is room.
  lemma RequestMayCountExactly(s: System, caller: int, video: int, k: nat)
    requires caller !in s.callers && |s.callers| < k
    ensures var jobs := s.db.jobs;
      var active := set id | id in jobs && (jobs[id].state == Pending || jobs[id].state == Running);
      (HasRoom(s.db) <==> |active| < 5)
      && ((exists s' :: Next(s, CountQueue(caller, video), s', k)) <==> Processable(s.db, video) && |active| < 5)
  {
    var jobs := s.db.jobs;
    var active := set id | id in jobs && (jobs[id].state == Pending || jobs[id].state == Running);
    assert forall id :: id in active <==> id in ActiveJobs(s.db);
    assert active == ActiveJobs(s.db);
    var s' := s.(callers := s.callers[caller := video]);
    assert |s'.callers| == |s.callers| + 1;
    if Processable(s.db, video) && HasRoom(s.db) {
      assert Next(s, CountQueue(caller, video), s', k);
    }
  }

  // Creating the process of an eligible video is counting and then inserting.
  lemma RequestIsSteps(s: System, caller: int, video: int, k: nat) returns (counted: System, s': System)
    requires caller !in s.callers && |s.callers| < k && IsEligible(s.db, video) && HasRoom(s.db)
    ensures Next(s, CountQueue(caller, video), counted, k) && Next(counted, CreateFetch(caller), s', k)
    ensures s' == s.(db := CreateFetchJobIfAbsent(s.db, video))
  {
    counted := s.(callers := s.callers[caller := video]);
    assert |counted.callers| == |s.callers| + 1;
    s' := s.(db := CreateFetchJobIfAbsent(s.db, video));
    assert counted.callers - {caller} == s.callers;
  }

  // A recognition worker may go on after the quota check exactly if less than the quota is used today.
  lemma QuotaMayBeCheckedExactly(s: System, w: string, k: nat)
    requires w in s.workers && w in s.asrWorkers && s.workers[w] == Idle
    ensures (exists s' :: Next(s, CheckQuota(w), s', k)) <==> Used(s.db, Today(s.db)) < DAILY_QUOTA_SECS
  {
    if Used(s.db, Today(s.db)) < DAILY_QUOTA_SECS {
      assert Next(s, CheckQuota(w), s.(workers := s.workers[w := QuotaChecked]), k);
    }
  }

  // Leasing the oldest job is the quota check, for recognition, and then the claim.
  lemma LeaseIsSteps(s: System, w: string, t: JobType, skipLocked: set<int>, id: int, k: nat)
    returns (checked: System, s': System)
    requires w in s.workers && s.workers[w] == Idle && t == (if w in s.asrWorkers then Asr else Fetch)
    requires IsOldestClaimable(s.db, t, skipLocked, id)
    requires t == Asr ==> Used(s.db, Today(s.db)) < DAILY_QUOTA_SECS
    ensures if t == Asr then Next(s, CheckQuota(w), checked, k) else checked == s
    ensures var until := s.db.now + (if t == Asr then ASR_LEASE_SECS else FETCH_LEASE_SECS);
      && Next(checked, ClaimJob(w, id, until), s', k)
      && s'.db == Claim(s.db, id, w, until) && s'.workers[w] == Working(Task(id, s.db.jobs[id].video, t))
  {
    var until := s.db.now + (if t == Asr then ASR_LEASE_SECS else FETCH_LEASE_SECS);
    checked := if t == Asr then s.(workers := s.workers[w := QuotaChecked]) else s;
    s' := checked.(db := Claim(s.db, id, w, until),
                   workers := checked.workers[w := Working(Task(id, s.db.jobs[id].video, t))],
                   claims := s.claims[id := Claims(s, id) + [w]]);
  }

  // Failing a job is reading its row and then writing it, unlocked exactly while attempts are left and
  // the failure is not final.
  lemma FailureIsSteps(s: System, w: string, message: string, final: bool, k: nat)
    returns (decided: System, s': System)
    requires w in s.workers && s.workers[w].Working? && Owned(s.db, s.workers[w].task.id, w)
    ensures Next(s, ReadToFail(w, final), decided, k) && Next(decided, WriteFail(w, message), s', k)
    ensures var id := s.workers[w].task.id;
      var state := if s.db.jobs[id].attempts < MAX_ATTEMPTS && !final then Pending else Failed;
      Release(s.db, id, w, state, message) == Some(s'.db) && s' == s.(db := s'.db)
  {
    var task := s.workers[w].task;
    var unlock := s.db.jobs[task.id].attempts < MAX_ATTEMPTS && !final;
    decided := s.(workers := s.workers[w := Failing(task, unlock)]);
    s' := s.(db := Release(s.db, task.id, w, if unlock then Pending else Failed, message).value);
    assert decided.workers[w := Working(task)] == s.workers;
  }
}
