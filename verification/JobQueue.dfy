/**
 * The queue of fetch and recognition jobs: the statements and transactions on its tables,
 * the protocol steps of callers and workers, and what every run keeps.
 */
module JobQueue {
  import opened Constants
  import opened Wrappers
  import VadRestore

  const MAX_ATTEMPTS := 3
  const MAX_QUEUE_SIZE := 5
  const MICROS_PER_SECOND := 1_000_000

  datatype JobType = Fetch | Asr

  datatype JobState = Pending | Running | Done | Failed

  // None stands for NULL. Times are seconds since the epoch.
  datatype Job = Job(video: int, jtype: JobType, online: string, state: JobState, lockedBy: Option<string>,
                     lockedUntil: Option<int>, attempts: nat, lastError: Option<string>, createdAt: int)

  datatype Blob = Blob(content: seq<bv8>, filename: string)

  // Likes below zero are unknown. The duration is in whole seconds, as it is read from the video service.
  datatype Video = Video(online: string, secs: nat, embeddable: bool, likes: int, views: int)

  datatype TranscriptionKey = TranscriptionKey(video: int, model: string)

  // `used` holds the recognition seconds charged per day, `blobs` the audio per video,
  // `sentences` how many sentences are stored for a transcription.
  datatype Db = Db(videos: map<int, Video>, jobs: map<int, Job>, nextId: int, blobs: map<int, Blob>,
                   transcriptions: map<TranscriptionKey, seq<VadRestore.Word>>,
                   sentences: map<TranscriptionKey, nat>, used: map<int, int>, now: int)

  // Durations are stored as intervals of microseconds.
  function NewInterval(secs: nat): nat { secs * MICROS_PER_SECOND }

  function FloorSecs(micros: nat): nat { micros / MICROS_PER_SECOND }

  function CeilSecs(micros: nat): nat { (micros + MICROS_PER_SECOND - 1) / MICROS_PER_SECOND }

  // Whole seconds not above, and not below, the interval.
  lemma RoundingIsTight(micros: nat)
    ensures FloorSecs(micros) * 1_000_000 <= micros < (FloorSecs(micros) + 1) * 1_000_000
    ensures (CeilSecs(micros) - 1) * 1_000_000 < micros <= CeilSecs(micros) * 1_000_000
  {
  }

  // What the check of a video reads is what was stored.
  function CheckedSecs(video: Video): (secs: nat)
    ensures secs == video.secs
  {
    FloorSecs(NewInterval(video.secs))
  }

  // What the quota is charged is what was stored.
  function ChargedSecs(video: Video): (secs: nat)
    ensures secs == video.secs
  {
    CeilSecs(NewInterval(video.secs))
  }

  // Quota days begin at midnight five hours east of Greenwich.
  function DayOf(now: int): int { (now + 5 * 60 * 60) / (24 * 60 * 60) }

  function Today(db: Db): int { DayOf(db.now) }

  function Used(db: Db, day: int): int { if day in db.used then db.used[day] else 0 }

  predicate HasObstacle(video: Video) {
    || !video.embeddable || CheckedSecs(video) > MAX_DURATION_SECS
    || (video.likes >= 0 && video.likes < MIN_LIKES_COUNT) || video.views < MIN_VIEWS_COUNT
  }

  predicate Processable(db: Db, video: int) { video in db.videos && !HasObstacle(db.videos[video]) }

  predicate IsActive(job: Job) { job.state == Pending || job.state == Running }

  function ActiveJobs(db: Db): set<int> { set id | id in db.jobs && IsActive(db.jobs[id]) }

  predicate IsJob(db: Db, id: int, video: int, t: JobType) {
    id in db.jobs && db.jobs[id].video == video && db.jobs[id].jtype == t
  }

  predicate HasJob(db: Db, video: int, t: JobType) {
    exists id :: id in db.jobs && IsJob(db, id, video, t)
  }

  predicate Claimable(db: Db, job: Job, t: JobType) {
    && job.jtype == t && job.attempts < MAX_ATTEMPTS
    && (job.state == Pending || (job.state == Running && job.lockedUntil.Some? && job.lockedUntil.value < db.now))
  }

  predicate Owned(db: Db, id: int, worker: string) {
    id in db.jobs && db.jobs[id].state == Running && db.jobs[id].lockedBy == Some(worker)
  }

  // ---- Statements: None when no row is returned or a constraint is violated ----

  function NewJob(video: int, t: JobType, online: string, now: int): Job {
    Job(video, t, online, Pending, None, None, 0, None, now)
  }

  // One job per video and type.
  function InsertJob(db: Db, video: int, t: JobType, online: string): Option<Db> {
    if HasJob(db, video, t) then None
    else Some(db.(jobs := db.jobs[db.nextId := NewJob(video, t, online, db.now)], nextId := db.nextId + 1))
  }

  // A refused insert has drawn its number from the sequence all the same.
  function SkipId(db: Db): Db { db.(nextId := db.nextId + 1) }

  function CreateFetchJobIfAbsent(db: Db, video: int): Db
    requires video in db.videos
  {
    match InsertJob(db, video, Fetch, db.videos[video].online)
    case Some(db') => db'
    case None => SkipId(db)
  }

  function Claim(db: Db, id: int, worker: string, lockedUntil: int): Db
    requires id in db.jobs
  {
    var job := db.jobs[id];
    db.(jobs := db.jobs[id :=
      job.(state := Running, lockedBy := Some(worker), lockedUntil := Some(lockedUntil), attempts := job.attempts + 1)])
  }

  // The lease may have expired; its columns stay as they are.
  function MarkJobDone(db: Db, id: int, t: JobType, worker: string): Option<Db> {
    if Owned(db, id, worker) && db.jobs[id].jtype == t
    then Some(db.(jobs := db.jobs[id := db.jobs[id].(state := Done, lastError := None)]))
    else None
  }

  function CreateAsrJob(db: Db, fetchId: int): Option<Db> {
    if fetchId in db.jobs && db.jobs[fetchId].jtype == Fetch
    then InsertJob(db, db.jobs[fetchId].video, Asr, db.jobs[fetchId].online)
    else None
  }

  // Unlocking makes the job pending, marking it failed ends it.
  function Release(db: Db, id: int, worker: string, state: JobState, message: string): Option<Db> {
    if Owned(db, id, worker)
    then Some(db.(jobs := db.jobs[id :=
      db.jobs[id].(state := state, lockedBy := None, lockedUntil := None, lastError := Some(message))]))
    else None
  }

  function Applied(result: Option<Db>, db: Db): Db {
    match result
    case Some(db') => db'
    case None => db
  }

  // ---- Transactions: everything or nothing ----

  datatype Outcome = Outcome(db: Db, ok: bool)

  // Store the audio, finish the fetch job, create the recognition job.
  function CompleteFetch(db: Db, worker: string, id: int, video: int, blob: Blob): Outcome {
    if video !in db.videos || video in db.blobs then Outcome(db, false)
    else
      match MarkJobDone(db.(blobs := db.blobs[video := blob]), id, Fetch, worker)
      case None => Outcome(db, false)
      case Some(db1) =>
        (match CreateAsrJob(db1, id)
         case None => Outcome(SkipId(db), false)
         case Some(db2) => Outcome(db2, true))
  }

  // Confidence is cut to 16 bits and must then be a percentage.
  function ToInt16(n: VadRestore.uint32): int { ((n as int) + 0x8000) % 0x1_0000 - 0x8000 }

  // The signed value of the low 16 bits.
  lemma ToInt16IsLowHalf(n: VadRestore.uint32)
    ensures -0x8000 <= ToInt16(n) < 0x8000
    ensures exists q :: ToInt16(n) + q * 0x1_0000 == n as int
  {
    var q := ((n as int) + 0x8000) / 0x1_0000;
    assert ToInt16(n) + q * 0x1_0000 == n as int;
  }

  predicate Storable(words: seq<VadRestore.Word>) {
    forall i :: 0 <= i < |words| ==> 0 <= ToInt16(words[i].confidence) <= 100
  }

  // A confidence fits exactly if its low 16 bits are a percentage.
  lemma StorableExactly(words: seq<VadRestore.Word>)
    ensures Storable(words)
            <==> forall i :: 0 <= i < |words| ==> (words[i].confidence as int) % 0x1_0000 <= 100
  {
    forall i | 0 <= i < |words|
      ensures 0 <= ToInt16(words[i].confidence) <= 100 <==> (words[i].confidence as int) % 0x1_0000 <= 100
    {
    }
  }

  // The words of a transcription are replaced, and its sentences go with the old words.
  function ReplaceWords(db: Db, key: TranscriptionKey, words: seq<VadRestore.Word>): Db {
    db.(transcriptions := db.transcriptions[key := words], sentences := db.sentences - {key})
  }

  // Replace the words of the video and model, finish the recognition job, charge the day.
  function CompleteAsr(
    db: Db, worker: string, id: int, video: int, model: string, words: seq<VadRestore.Word>): Outcome
  {
    if video !in db.videos || !Storable(words) then Outcome(db, false)
    else
      match MarkJobDone(ReplaceWords(db, TranscriptionKey(video, model), words), id, Asr, worker)
      case None => Outcome(db, false)
      case Some(db1) =>
        var day := Today(db);
        Outcome(db1.(used := db1.used[day := Used(db, day) + ChargedSecs(db.videos[video])]), true)
  }

  // ---- Processes ----

  // What a worker remembers of the job it leased.
  datatype Task = Task(id: int, video: int, t: JobType)

  // Failing: the server has read the job and decided, but not yet written.
  datatype Phase =
    | Idle
    | QuotaChecked
    | Working(task: Task)
    | Failing(task: Task, unlock: bool)

  datatype Charge = Charge(day: int, id: int, secs: nat)

  // `callers` holds the requests between counting the queue and inserting, with their video.
  // `claims` and `charges` are history: who claimed a job, in order, and what was charged.
  datatype System = System(db: Db, workers: map<string, Phase>, asrWorkers: set<string>, callers: map<int, int>,
                           claims: map<int, seq<string>>, charges: seq<Charge>)

  datatype Step =
    | CountQueue(caller: int, video: int)
    | CreateFetch(caller: int)
    | GiveUpRequest(caller: int)
    | CheckQuota(worker: string)
    | ClaimJob(worker: string, id: int, lockedUntil: int)
    | ReportFetch(worker: string, blob: Blob)
    | ReportAsr(worker: string, model: string, words: seq<VadRestore.Word>)
    | BuildSentences(key: TranscriptionKey, count: nat)
    | ReadToFail(worker: string, final: bool)
    | WriteFail(worker: string, message: string)
    | Leave(worker: string)
    | Tick(now: int)

  function Claims(s: System, id: int): seq<string> {
    if id in s.claims then s.claims[id] else []
  }

  predicate IsWorking(s: System, worker: string, t: JobType) {
    worker in s.workers && s.workers[worker].Working? && s.workers[worker].task.t == t
  }

  // At most k requests are between counting and inserting. A worker runs one job at a time and
  // one call at a time; after a report it stays, since the answer may be lost, until it leaves.
  ghost predicate Next(s: System, step: Step, s': System, k: nat) {
    match step
    case CountQueue(caller, video) =>
      caller !in s.callers && Processable(s.db, video) && |ActiveJobs(s.db)| < MAX_QUEUE_SIZE
      && s' == s.(callers := s.callers[caller := video]) && |s'.callers| <= k
    case CreateFetch(caller) =>
      caller in s.callers && s.callers[caller] in s.db.videos
      && s' == s.(db := CreateFetchJobIfAbsent(s.db, s.callers[caller]), callers := s.callers - {caller})
    case GiveUpRequest(caller) =>
      s' == s.(callers := s.callers - {caller})
    case CheckQuota(w) =>
      w in s.asrWorkers && w in s.workers && s.workers[w] == Idle && Used(s.db, Today(s.db)) < DAILY_QUOTA_SECS
      && s' == s.(workers := s.workers[w := QuotaChecked])
    case ClaimJob(w, id, lockedUntil) =>
      w in s.workers && s.workers[w] == (if w in s.asrWorkers then QuotaChecked else Idle)
      && id in s.db.jobs && Claimable(s.db, s.db.jobs[id], if w in s.asrWorkers then Asr else Fetch)
      && s' == s.(db := Claim(s.db, id, w, lockedUntil),
                  workers := s.workers[w := Working(Task(id, s.db.jobs[id].video, s.db.jobs[id].jtype))],
                  claims := s.claims[id := Claims(s, id) + [w]])
    case ReportFetch(w, blob) =>
      IsWorking(s, w, Fetch)
      && s' == s.(db := CompleteFetch(s.db, w, s.workers[w].task.id, s.workers[w].task.video, blob).db)
    case ReportAsr(w, model, words) =>
      IsWorking(s, w, Asr)
      && (var task := s.workers[w].task;
          var done := CompleteAsr(s.db, w, task.id, task.video, model, words);
          s' == s.(db := done.db, charges := if done.ok then s.charges + [ChargeFor(s.db, task)] else s.charges))
    case BuildSentences(key, count) =>
      key in s.db.transcriptions && s' == s.(db := s.db.(sentences := s.db.sentences[key := count]))
    case ReadToFail(w, final) =>
      w in s.workers && s.workers[w].Working?
      && (var task := s.workers[w].task;
          if Owned(s.db, task.id, w)
          then s' == s.(workers := s.workers[w := Failing(task, s.db.jobs[task.id].attempts < MAX_ATTEMPTS && !final)])
          else s' == s)
    case WriteFail(w, message) =>
      w in s.workers && s.workers[w].Failing?
      && (var task, state := s.workers[w].task, if s.workers[w].unlock then Pending else Failed;
          s' == s.(db := Applied(Release(s.db, task.id, w, state, message), s.db),
                   workers := s.workers[w := Working(task)]))
    case Leave(w) =>
      w in s.workers && s' == s.(workers := s.workers[w := Idle])
    case Tick(now) =>
      now >= s.db.now && s' == s.(db := s.db.(now := now))
  }

  function ChargeFor(db: Db, task: Task): Charge {
    Charge(Today(db), task.id, if task.video in db.videos then ChargedSecs(db.videos[task.video]) else 0)
  }

  ghost predicate Init(s: System) {
    && s.db.jobs == map[] && s.db.blobs == map[] && s.db.used == map[]
    && s.callers == map[] && s.claims == map[] && s.charges == []
    && forall w :: w in s.workers ==> s.workers[w] == Idle
  }

  ghost predicate IsPath(path: seq<System>, steps: seq<Step>, k: nat) {
    && |path| == |steps| + 1
    && forall i, j :: 0 <= i < j < |path| && j == i + 1 ==> Next(path[i], steps[i], path[j], k)
  }

  ghost predicate IsRun(run: seq<System>, steps: seq<Step>, k: nat) {
    IsPath(run, steps, k) && Init(run[0])
  }

  ghost predicate Reachable(s: System, k: nat) {
    exists run: seq<System>, steps: seq<Step> :: IsRun(run, steps, k) && run[|run| - 1] == s
  }

  lemma InitIsReachable(s: System, k: nat)
    requires Init(s)
    ensures Reachable(s, k)
  {
    assert IsRun([s], [], k) && [s][|[s]| - 1] == s;
  }

  lemma StepIsReachable(s: System, step: Step, s': System, k: nat)
    requires Reachable(s, k) && Next(s, step, s', k)
    ensures Reachable(s', k)
  {
    hide Next, Init;
    var run: seq<System>, steps: seq<Step> :| IsRun(run, steps, k) && run[|run| - 1] == s;
    var run', steps' := run + [s'], steps + [step];
    forall i, j | 0 <= i < j < |run'| && j == i + 1 ensures Next(run'[i], steps'[i], run'[j], k) {
      assert i < |steps| ==> Next(run[i], steps[i], run[j], k);
    }
    assert IsRun(run', steps', k) && run'[|run'| - 1] == s';
  }
}
