/** Reachable states that show where the job queue falls short of what one might expect of it. */
module JobExamples {
  import opened Constants
  import opened Wrappers
  import opened JobQueue
  import JobEnds
  import JobLeases
  import JobPipeline
  import VadRestore

  // A video without obstacles.
  function LikedVideo(online: string, secs: nat): Video {
    Video(online, secs, true, MIN_LIKES_COUNT, MIN_VIEWS_COUNT)
  }

  function Start(videos: map<int, Video>, workers: map<string, Phase>, asrWorkers: set<string>): System {
    System(Db(videos, map[], 1, map[], map[], map[], map[], 0), workers, asrWorkers, map[], map[], [])
  }

  const MINUTES := map[7 := LikedVideo("seven", 60), 8 := LikedVideo("eight", 60)]

  // One fetch worker and two videos.
  const START := Start(MINUTES, map["a" := Idle], {})

  // The same videos with two recognition workers.
  const CREW := Start(MINUTES, map["f" := Idle, "a" := Idle, "b" := Idle], {"a", "b"})

  function LeaseSecs(t: JobType): nat { if t == Asr then ASR_LEASE_SECS else FETCH_LEASE_SECS }

  lemma Requested(s: System, video: int, k: nat) returns (s': System)
    requires Reachable(s, k) && k >= 1 && s.callers == map[]
    requires Processable(s.db, video) && |ActiveJobs(s.db)| < MAX_QUEUE_SIZE
    ensures Reachable(s', k) && s' == s.(db := CreateFetchJobIfAbsent(s.db, video))
  {
    hide Reachable, CreateFetchJobIfAbsent;
    var counted := s.(callers := map[0 := video]);
    StepIsReachable(s, CountQueue(0, video), counted, k);
    s' := s.(db := CreateFetchJobIfAbsent(s.db, video));
    assert counted.callers - {0} == map[];
    StepIsReachable(counted, CreateFetch(0), s', k);
  }

  // The job is claimed for as long as the service leases it.
  lemma Leased(s: System, w: string, id: int, t: JobType, k: nat) returns (s': System)
    requires Reachable(s, k) && w in s.workers && t == (if w in s.asrWorkers then Asr else Fetch)
    requires s.workers[w] == (if w in s.asrWorkers then QuotaChecked else Idle)
    requires id in s.db.jobs && Claimable(s.db, s.db.jobs[id], t)
    ensures Reachable(s', k)
    ensures s' == s.(db := Claim(s.db, id, w, s.db.now + LeaseSecs(t)),
                     workers := s.workers[w := Working(Task(id, s.db.jobs[id].video, t))], claims := s'.claims)
  {
    hide Reachable;
    assert s.db.jobs[id].jtype == t;
    s' := s.(db := Claim(s.db, id, w, s.db.now + LeaseSecs(t)),
             workers := s.workers[w := Working(Task(id, s.db.jobs[id].video, t))],
             claims := s.claims[id := Claims(s, id) + [w]]);
    StepIsReachable(s, ClaimJob(w, id, s.db.now + LeaseSecs(t)), s', k);
  }

  // A worker leases the job and the lease runs out.
  lemma Expired(s: System, w: string, id: int, t: JobType, k: nat) returns (s': System)
    requires Reachable(s, k) && w in s.workers && t == (if w in s.asrWorkers then Asr else Fetch)
    requires s.workers[w] == (if w in s.asrWorkers then QuotaChecked else Idle)
    requires id in s.db.jobs && Claimable(s.db, s.db.jobs[id], t)
    ensures Reachable(s', k)
    ensures s' == s.(db := Claim(s.db, id, w, s.db.now + LeaseSecs(t)).(now := s.db.now + LeaseSecs(t) + 1),
                     workers := s.workers[w := Working(Task(id, s.db.jobs[id].video, t))], claims := s'.claims)
  {
    hide Reachable;
    var leased := Leased(s, w, id, t, k);
    var later := s.db.now + LeaseSecs(t) + 1;
    s' := leased.(db := leased.db.(now := later));
    StepIsReachable(leased, Tick(later), s', k);
  }

  lemma Left(s: System, w: string, k: nat) returns (s': System)
    requires Reachable(s, k) && w in s.workers
    ensures Reachable(s', k) && s' == s.(workers := s.workers[w := Idle])
  {
    hide Reachable;
    s' := s.(workers := s.workers[w := Idle]);
    StepIsReachable(s, Leave(w), s', k);
  }

  // A worker fails its job while attempts are left.
  lemma GivenBack(s: System, w: string, k: nat) returns (s': System)
    requires Reachable(s, k) && w in s.workers && s.workers[w].Working?
    requires Owned(s.db, s.workers[w].task.id, w) && s.db.jobs[s.workers[w].task.id].attempts < MAX_ATTEMPTS
    ensures Reachable(s', k)
    ensures s' == s.(db := Applied(Release(s.db, s.workers[w].task.id, w, Pending, ""), s.db))
  {
    hide Reachable, Release, Applied;
    var task := s.workers[w].task;
    var deciding := s.(workers := s.workers[w := Failing(task, true)]);
    StepIsReachable(s, ReadToFail(w, false), deciding, k);
    s' := s.(db := Applied(Release(s.db, task.id, w, Pending, ""), s.db));
    assert deciding.workers[w := Working(task)] == s.workers;
    StepIsReachable(deciding, WriteFail(w, ""), s', k);
  }

  lemma FirstJob(k: nat) returns (s: System)
    requires k >= 1
    ensures Reachable(s, k)
    ensures s == START.(db := START.db.(jobs := map[1 := NewJob(7, Fetch, "seven", 0)], nextId := 2))
  {
    InitIsReachable(START, k);
    s := Requested(START, 7, k);
  }

  // Three claims, each given up, and the job can never end.
  lemma AbandonmentIsReachable(k: nat) returns (s: System)
    requires k >= 1
    ensures Reachable(s, k) && JobLeases.Abandoned(s, 1)
    ensures JobEnds.HasWorker(s, s.db.jobs[1].jtype) && !JobEnds.CanEnd(s, 1, k)
  {
    s := FirstJob(k);
    hide Reachable;
    s := Expired(s, "a", 1, Fetch, k);
    s := Left(s, "a", k);
    s := Expired(s, "a", 1, Fetch, k);
    s := Left(s, "a", k);
    s := Expired(s, "a", 1, Fetch, k);
    s := Left(s, "a", k);
    assert JobEnds.OfType(s, "a", Fetch);
    JobEnds.AbandonedCannotEnd(s, 1, k);
  }

  // The holder of the job of one video reports audio for another, and the tables are broken.
  lemma MismatchedReportBreaks(k: nat, blob: Blob) returns (s: System)
    requires k >= 1
    ensures Reachable(s, k)
    ensures var done := CompleteFetch(s.db, "a", 1, 8, blob);
      1 in s.db.jobs && s.db.jobs[1].video == 7 && done.ok && !JobPipeline.GoodDb(done.db)
  {
    s := FirstJob(k);
    s := Leased(s, "a", 1, Fetch, k);
    var run: seq<System>, steps: seq<Step> :| IsRun(run, steps, k) && run[|run| - 1] == s;
    JobPipeline.RunIsSafe(run, steps, k, |run| - 1);
    JobPipeline.MismatchedReportBreaksExactly(s.db, "a", 1, 8, blob);
  }

  // ---- A video goes through both stages ----

  ghost predicate IsNew(db: Db, video: int) {
    && video in db.videos && video !in db.blobs
    && forall id :: id in db.jobs ==> id < db.nextId && db.jobs[id].video != video
  }

  // The tables before and after the audio of a new video is fetched.
  function Asked(db: Db, video: int): Db
    requires video in db.videos
  {
    db.(nextId := db.nextId + 1, jobs := db.jobs[db.nextId := NewJob(video, Fetch, db.videos[video].online, db.now)])
  }

  function Fetched(db: Db, w: string, video: int, blob: Blob): Db
    requires video in db.videos
  {
    var id, online := db.nextId, db.videos[video].online;
    var fetch := NewJob(video, Fetch, online, db.now).(
      state := Done, lockedBy := Some(w), lockedUntil := Some(db.now + FETCH_LEASE_SECS), attempts := 1);
    db.(nextId := id + 2, blobs := db.blobs[video := blob],
        jobs := db.jobs[id := fetch][id + 1 := NewJob(video, Asr, online, db.now)])
  }

  lemma FetchingAsked(db: Db, w: string, video: int, blob: Blob)
    requires IsNew(db, video)
    ensures CreateFetchJobIfAbsent(db, video) == Asked(db, video)
    ensures Claimable(Asked(db, video), Asked(db, video).jobs[db.nextId], Fetch)
    ensures var leased := Claim(Asked(db, video), db.nextId, w, db.now + LeaseSecs(Fetch));
      CompleteFetch(leased, w, db.nextId, video, blob).db == Fetched(db, w, video, blob)
  {
    var leased := Claim(Asked(db, video), db.nextId, w, db.now + LeaseSecs(Fetch));
    assert CompleteFetch(leased, w, db.nextId, video, blob).db.jobs == Fetched(db, w, video, blob).jobs;
  }

  lemma FetchIsReached(s: System, w: string, video: int, blob: Blob, k: nat) returns (s': System)
    requires Reachable(s, k) && k >= 1 && IsNew(s.db, video) && Processable(s.db, video)
    requires s.callers == map[] && ActiveJobs(s.db) == {}
    requires w in s.workers && w !in s.asrWorkers && s.workers[w] == Idle
    ensures Reachable(s', k)
    ensures s' == s.(db := Fetched(s.db, w, video, blob), claims := s'.claims)
  {
    FetchingAsked(s.db, w, video, blob);
    hide Reachable, CompleteFetch, Processable, ActiveJobs, Claimable, IsNew, Fetched, LeaseSecs;
    var asked := Requested(s, video, k);
    var leased := Leased(asked, w, s.db.nextId, Fetch, k);
    var reported := leased.(db := Fetched(s.db, w, video, blob));
    StepIsReachable(leased, ReportFetch(w, blob), reported, k);
    s' := Left(reported, w, k);
    assert s'.workers == s.workers;
  }

  lemma Checked(s: System, w: string, k: nat) returns (s': System)
    requires Reachable(s, k) && Used(s.db, Today(s.db)) < DAILY_QUOTA_SECS
    requires w in s.workers && w in s.asrWorkers && s.workers[w] == Idle
    ensures Reachable(s', k) && s' == s.(workers := s.workers[w := QuotaChecked])
  {
    hide Reachable;
    s' := s.(workers := s.workers[w := QuotaChecked]);
    StepIsReachable(s, CheckQuota(w), s', k);
  }

  // The tables after recognition job id is done; whoever does it charges the day.
  function Recognised(db: Db, w: string, id: int, model: string, words: seq<VadRestore.Word>): Db
    requires id in db.jobs && db.jobs[id].video in db.videos
  {
    var job := db.jobs[id];
    ReplaceWords(db, TranscriptionKey(job.video, model), words).(
      jobs := db.jobs[id := job.(state := Done, lockedBy := Some(w), lockedUntil := Some(db.now + ASR_LEASE_SECS),
                                 attempts := job.attempts + 1, lastError := None)],
      used := db.used[Today(db) := Used(db, Today(db)) + ChargedSecs(db.videos[job.video])])
  }

  lemma RecognisingClaimed(db: Db, w: string, id: int, model: string, words: seq<VadRestore.Word>)
    requires id in db.jobs && db.jobs[id].video in db.videos && Claimable(db, db.jobs[id], Asr) && Storable(words)
    ensures CompleteAsr(Claim(db, id, w, db.now + LeaseSecs(Asr)), w, id, db.jobs[id].video, model, words)
         == Outcome(Recognised(db, w, id, model, words), true)
  {
    var leased := Claim(db, id, w, db.now + LeaseSecs(Asr));
    assert CompleteAsr(leased, w, id, db.jobs[id].video, model, words).db.jobs
        == Recognised(db, w, id, model, words).jobs;
  }

  lemma Transcribed(s: System, w: string, model: string, words: seq<VadRestore.Word>, db': Db, k: nat)
    returns (s': System)
    requires Reachable(s, k) && IsWorking(s, w, Asr)
    requires CompleteAsr(s.db, w, s.workers[w].task.id, s.workers[w].task.video, model, words) == Outcome(db', true)
    ensures Reachable(s', k) && s' == s.(db := db', charges := s'.charges)
  {
    hide Reachable, CompleteAsr;
    s' := s.(db := db', charges := s.charges + [ChargeFor(s.db, s.workers[w].task)]);
    StepIsReachable(s, ReportAsr(w, model, words), s', k);
  }

  // A worker whose quota check is over does the job.
  lemma RecognitionIsReached(
    s: System, w: string, id: int, model: string, words: seq<VadRestore.Word>, k: nat) returns (s': System)
    requires Reachable(s, k) && id in s.db.jobs && s.db.jobs[id].video in s.db.videos && Storable(words)
    requires Claimable(s.db, s.db.jobs[id], Asr)
    requires w in s.workers && w in s.asrWorkers && s.workers[w] == QuotaChecked
    ensures Reachable(s', k)
    ensures s' == s.(db := Recognised(s.db, w, id, model, words), workers := s.workers[w := Idle],
                     claims := s'.claims, charges := s'.charges)
  {
    RecognisingClaimed(s.db, w, id, model, words);
    hide Reachable, CompleteAsr, Claimable, Recognised, Claim, LeaseSecs;
    s' := Leased(s, w, id, Asr, k);
    s' := Transcribed(s', w, model, words, Recognised(s.db, w, id, model, words), k);
    s' := Left(s', w, k);
  }

  // ---- A lease check meets a row without an owner ----

  // The recognition job of the first video waits.
  lemma CrewWaits(k: nat, blob: Blob) returns (s: System)
    requires k >= 1
    ensures Reachable(s, k) && s.workers == CREW.workers && s.asrWorkers == CREW.asrWorkers
    ensures 2 in s.db.jobs && s.db.jobs[2] == NewJob(7, Asr, "seven", 0) && s.db.used == map[]
  {
    InitIsReachable(CREW, k);
    s := FetchIsReached(CREW, "f", 7, blob, k);
  }

  // A recognition worker still at its job, before it asks for the audio: its lease has expired,
  // another worker has claimed the job and given it back, and the row has no owner.
  lemma OwnerMayBeNull(k: nat, blob: Blob) returns (s: System)
    requires k >= 1
    ensures Reachable(s, k)
    ensures "a" in s.workers && "a" in s.asrWorkers && s.workers["a"] == Working(Task(2, 7, Asr))
    ensures 2 in s.db.jobs && s.db.jobs[2].lockedBy == None
  {
    s := CrewWaits(k, blob);
    hide Reachable;
    s := Checked(s, "a", k);
    s := Expired(s, "a", 2, Asr, k);
    s := Checked(s, "b", k);
    s := Leased(s, "b", 2, Asr, k);
    s := GivenBack(s, "b", k);
  }

  // ---- The quota in numbers ----

  // A new video goes through both stages, and its seconds are charged.
  lemma VideoIsCharged(
    s: System, f: string, w: string, video: int, blob: Blob, model: string, words: seq<VadRestore.Word>, k: nat)
    returns (s': System)
    requires Reachable(s, k) && k >= 1 && IsNew(s.db, video) && Processable(s.db, video) && Storable(words)
    requires s.callers == map[] && ActiveJobs(s.db) == {}
    requires f in s.workers && f !in s.asrWorkers && s.workers[f] == Idle
    requires w in s.workers && w in s.asrWorkers && s.workers[w] == QuotaChecked
    ensures Reachable(s', k)
    ensures s' == s.(db := s'.db, workers := s.workers[w := Idle], claims := s'.claims, charges := s'.charges)
    ensures ActiveJobs(s'.db) == {} && s'.db.videos == s.db.videos
    ensures forall v :: v != video && IsNew(s.db, v) ==> IsNew(s'.db, v)
    ensures Used(s'.db, Today(s'.db)) == Used(s.db, Today(s.db)) + s.db.videos[video].secs
  {
    hide Reachable;
    s' := FetchIsReached(s, f, video, blob, k);
    s' := RecognitionIsReached(s', w, s.db.nextId + 1, model, words, k);
  }

  // Four videos that fill the quota up to one second, and n more of three hours.
  function BusyVideos(n: nat): map<int, Video> { map v | 1 <= v <= 4 + n :: BusyVideo(v) }

  function BusyVideo(v: int): Video { LikedVideo("video", if v == 4 then 3_599 else MAX_DURATION_SECS) }

  // One fetch worker, and recognition workers of which some have had the quota checked; the videos
  // from `video` on are new.
  ghost predicate Waiting(
    s: System, f: string, crew: set<string>, checked: set<string>, video: int, spent: nat, k: nat)
  {
    && Reachable(s, k) && s.db.videos == BusyVideos(|crew|) && s.callers == map[] && ActiveJobs(s.db) == {}
    && s.asrWorkers == crew && f in s.workers && f !in crew && s.workers[f] == Idle
    && (forall w :: w in crew ==> w in s.workers && s.workers[w] == if w in checked then QuotaChecked else Idle)
    && Used(s.db, Today(s.db)) == spent
    && forall v :: video <= v <= 4 + |crew| ==> IsNew(s.db, v)
  }

  lemma BusyStart(f: string, crew: set<string>, k: nat) returns (s: System)
    requires f !in crew
    ensures Waiting(s, f, crew, {}, 1, 0, k)
  {
    s := Start(BusyVideos(|crew|), map w | w in crew + {f} :: Idle, crew);
    InitIsReachable(s, k);
  }

  lemma OneChecks(
    s: System, w: string, f: string, crew: set<string>, checked: set<string>, video: int, spent: nat, k: nat)
    returns (s': System)
    requires Waiting(s, f, crew, checked, video, spent, k) && w in crew - checked && spent < DAILY_QUOTA_SECS
    ensures Waiting(s', f, crew, checked + {w}, video, spent, k)
  {
    hide Reachable, IsNew, ActiveJobs, BusyVideos;
    s' := Checked(s, w, k);
  }

  lemma OnePasses(
    s: System, w: string, f: string, crew: set<string>, checked: set<string>, video: int, spent: nat, k: nat,
    blob: Blob, model: string, words: seq<VadRestore.Word>) returns (s': System)
    requires k >= 1 && Waiting(s, f, crew, checked, video, spent, k) && w in crew * checked && Storable(words)
    requires 1 <= video <= 4 + |crew|
    ensures Waiting(s', f, crew, checked - {w}, video + 1, spent + BusyVideo(video).secs, k)
  {
    assert video in s.db.videos && s.db.videos[video] == BusyVideo(video);
    assert Processable(s.db, video);
    hide Reachable, IsNew, Processable, ActiveJobs, Used, Today, BusyVideos;
    s' := VideoIsCharged(s, f, w, video, blob, model, words, k);
  }

  lemma FourPass(
    s: System, w: string, f: string, crew: set<string>, k: nat, blob: Blob, model: string, words: seq<VadRestore.Word>)
    returns (s': System)
    requires k >= 1 && Waiting(s, f, crew, {}, 1, 0, k) && w in crew && Storable(words)
    ensures Waiting(s', f, crew, {}, 5, DAILY_QUOTA_SECS - 1, k)
  {
    hide Waiting, Storable;
    assert {} + {w} - {w} == {};
    s' := OneChecks(s, w, f, crew, {}, 1, 0, k);
    s' := OnePasses(s', w, f, crew, {} + {w}, 1, 0, k, blob, model, words);
    s' := OneChecks(s', w, f, crew, {}, 2, 10_800, k);
    s' := OnePasses(s', w, f, crew, {} + {w}, 2, 10_800, k, blob, model, words);
    s' := OneChecks(s', w, f, crew, {}, 3, 21_600, k);
    s' := OnePasses(s', w, f, crew, {} + {w}, 3, 21_600, k, blob, model, words);
    s' := OneChecks(s', w, f, crew, {}, 4, 32_400, k);
    s' := OnePasses(s', w, f, crew, {} + {w}, 4, 32_400, k, blob, model, words);
  }

  lemma {:induction false} AllCheck(s: System, f: string, crew: set<string>, checked: set<string>, k: nat)
    returns (s': System)
    requires Waiting(s, f, crew, checked, 5, DAILY_QUOTA_SECS - 1, k) && checked <= crew
    ensures Waiting(s', f, crew, crew, 5, DAILY_QUOTA_SECS - 1, k)
    decreases crew - checked
  {
    hide Waiting;
    s' := s;
    if w :| w in crew && w !in checked {
      s' := OneChecks(s, w, f, crew, checked, 5, DAILY_QUOTA_SECS - 1, k);
      s' := AllCheck(s', f, crew, checked + {w}, k);
    } else {
      assert checked == crew;
    }
  }

  lemma {:induction false} AllPass(
    s: System, f: string, crew: set<string>, checked: set<string>, video: int, spent: nat, k: nat,
    blob: Blob, model: string, words: seq<VadRestore.Word>) returns (s': System)
    requires k >= 1 && Waiting(s, f, crew, checked, video, spent, k) && checked <= crew && Storable(words)
    requires 5 <= video && video - 1 + |checked| <= 4 + |crew|
    ensures Waiting(s', f, crew, {}, video + |checked|, spent + |checked| * MAX_DURATION_SECS, k)
    decreases checked
  {
    hide Waiting, Storable;
    s' := s;
    if checked != {} {
      var w :| w in checked;
      s' := OnePasses(s, w, f, crew, checked, video, spent, k, blob, model, words);
      s' := AllPass(s', f, crew, checked - {w}, video + 1, spent + MAX_DURATION_SECS, k, blob, model, words);
    }
  }

  // For any number of recognition workers, and whatever is in the videos, the bound on the quota is
  // met exactly: all workers pass the check just below the quota, and then each does a longest video.
  lemma QuotaBoundIsReached(
    f: string, crew: set<string>, k: nat, blob: Blob, model: string, words: seq<VadRestore.Word>) returns (s: System)
    requires k >= 1 && crew != {} && f !in crew && Storable(words)
    ensures Reachable(s, k) && s.asrWorkers == crew
    ensures Used(s.db, Today(s.db)) == DAILY_QUOTA_SECS - 1 + |crew| * MAX_DURATION_SECS
  {
    hide Reachable, Storable, ActiveJobs, IsNew, BusyVideos;
    s := BusyStart(f, crew, k);
    var w :| w in crew;
    s := FourPass(s, w, f, crew, k, blob, model, words);
    s := AllCheck(s, f, crew, {}, k);
    s := AllPass(s, f, crew, crew, 5, DAILY_QUOTA_SECS - 1, k, blob, model, words);
  }
}
