/**
 * The queue of breakdown batches: the statements on its tables as relations between
 * database states, the protocol steps of callers and runners, and what every run keeps.
 */
module BatchQueue {
  import opened Constants
  import opened Sets
  import opened Wrappers

  const MAX_ACTIVE := 3

  datatype BatchState = Pending | Running | Done | Failed

  datatype Key = Key(transcription: int, startSeq: int, lang: string)

  datatype Batch = Batch(key: Key, state: BatchState, lockedBy: Option<string>, lockedUntil: int, createdAt: int)

  // The breakdown of one sentence in one language.
  datatype Row = Row(transcription: int, seqNo: int, lang: string)

  // Sentences of a transcription are numbered 0, 1, ... without gaps, so their number says it all.
  datatype Db = Db(sentences: map<int, nat>, rows: set<Row>, batches: map<int, Batch>, nextId: int, now: int)

  function Count(db: Db, transcription: int): nat {
    if transcription in db.sentences then db.sentences[transcription] else 0
  }

  predicate HasSentence(db: Db, transcription: int, seqNo: int) {
    0 <= seqNo < Count(db, transcription)
  }

  // The batch a sentence belongs to. Division by the batch size truncates toward zero.
  function BatchStart(sentSeq: int): (start: int)
    ensures start % SENTENCE_BATCH_SIZE == 0
    ensures sentSeq >= 0 ==> start <= sentSeq < start + SENTENCE_BATCH_SIZE
    ensures sentSeq < 0 ==> start - SENTENCE_BATCH_SIZE < sentSeq <= start <= 0
  {
    var whole := if sentSeq >= 0 then sentSeq / SENTENCE_BATCH_SIZE else -((-sentSeq) / SENTENCE_BATCH_SIZE);
    whole * SENTENCE_BATCH_SIZE
  }

  // How many of the first p positions of the batch have a sentence.
  function BatchLenBefore(db: Db, key: Key, p: nat): nat {
    var from, end := if key.startSeq < 0 then 0 else key.startSeq, key.startSeq + p;
    var last := if Count(db, key.transcription) < end then Count(db, key.transcription) else end;
    if from < last then last - from else 0
  }

  function BatchLen(db: Db, key: Key): nat { BatchLenBefore(db, key, SENTENCE_BATCH_SIZE) }

  predicate IsActive(b: Batch) { b.state == Pending || b.state == Running }

  function ActiveBatches(db: Db, transcription: int): set<int> {
    set id | id in db.batches && db.batches[id].key.transcription == transcription && IsActive(db.batches[id])
  }

  // The positions of the batch whose sentence has a stored breakdown.
  function Covered(db: Db, key: Key): set<int> {
    set p: int | 0 <= p < BatchLen(db, key) && HasRow(db, key, p)
  }

  predicate HasRow(db: Db, key: Key, p: int) {
    Row(key.transcription, key.startSeq + p, key.lang) in db.rows
  }

  predicate Claimable(db: Db, b: Batch) {
    b.state == Pending || (b.state == Running && b.lockedUntil < db.now)
  }

  predicate OwnedBy(db: Db, id: int, name: string) {
    id in db.batches && db.batches[id].state == Running && db.batches[id].lockedBy == Some(name)
  }

  // ---- Statements and transactions ----

  // Deleting the sentences of a transcription takes their breakdowns and batches along;
  // the new ones are inserted in the same transaction.
  function Rebuild(db: Db, transcription: int, count: nat): Db {
    db.(
      sentences := db.sentences[transcription := count],
      rows := (set r | r in db.rows && r.transcription != transcription),
      batches := map id | id in db.batches && db.batches[id].key.transcription != transcription :: db.batches[id])
  }

  // A row for a missing sentence is refused; a row that exists is kept.
  function InsertBreakdown(db: Db, transcription: int, seqNo: int, lang: string): Option<Db> {
    if HasSentence(db, transcription, seqNo)
    then Some(db.(rows := db.rows + {Row(transcription, seqNo, lang)})) else None
  }

  function Requeued(b: Batch): Batch {
    if b.state == Failed then b.(state := Pending) else b
  }

  // The batch with this key is reused; a failed one becomes pending again.
  ghost predicate Joins(db: Db, key: Key, id: int, db': Db) {
    && id in db.batches && db.batches[id].key == key
    && db' == db.(batches := db.batches[id := Requeued(db.batches[id])], nextId := db'.nextId)
  }

  // Insert, or join the batch with the same key; the sequence of ids may skip numbers.
  ghost predicate Enqueued(db: Db, key: Key, db': Db) {
    && HasSentence(db, key.transcription, key.startSeq)
    && db'.nextId > db.nextId
    && ((exists id :: Joins(db, key, id, db'))
        || ((forall id :: id in db.batches ==> db.batches[id].key != key)
            && db' == db.(batches := db.batches[db.nextId := Batch(key, Pending, None, 0, db.now)],
                          nextId := db'.nextId)))
  }

  function Claim(db: Db, id: int, name: string, lockedUntil: int): Db
    requires id in db.batches
  {
    db.(batches := db.batches[id :=
      db.batches[id].(state := Running, lockedBy := Some(name), lockedUntil := lockedUntil)])
  }

  // Done or failed, by row id and only for the runner that holds the lease.
  function Mark(db: Db, id: int, name: string, state: BatchState): Db {
    if OwnedBy(db, id, name)
    then db.(batches := db.batches[id := db.batches[id].(state := state, lockedBy := None, lockedUntil := 0)])
    else db
  }

  // ---- Processes ----

  datatype Phase =
    | Idle
    | Claimed(id: int, key: Key)
    | Working(id: int, key: Key, n: nat, inserted: set<int>)

  // Runner names are drawn at random, so two runners may share one.
  datatype Runner = Runner(name: string, phase: Phase)

  // `callers` holds the requests between counting the active batches and inserting theirs.
  datatype System = System(db: Db, runners: map<int, Runner>, callers: map<int, Key>)

  datatype Step =
    | RebuildSentences(transcription: int, count: nat)
    | CountActive(caller: int, key: Key)
    | InsertBatch(caller: int)
    | GiveUpRequest(caller: int)
    | ClaimBatch(runner: int, id: int, lockedUntil: int)
    | LoadBatch(runner: int)
    | StoreBreakdown(runner: int, position: int)
    | MarkDone(runner: int)
    | MarkFailed(runner: int)
    | Crash(runner: int)
    | Tick(now: int)

  ghost function CallersOf(s: System, transcription: int): set<int> {
    set c | c in s.callers && s.callers[c].transcription == transcription
  }

  // The last check of a request before it inserts its batch. The earlier ones (nothing stored yet,
  // no unfailed batch, quota left) may be outdated by now and only turn more requests away.
  ghost predicate MayEnqueue(db: Db, key: Key) {
    key.startSeq % SENTENCE_BATCH_SIZE == 0 && |ActiveBatches(db, key.transcription)| < MAX_ACTIVE
  }

  ghost predicate WithPhase(s: System, s': System, runner: int, phase: Phase)
    requires runner in s.runners
  {
    s' == s.(db := s'.db, runners := s.runners[runner := s.runners[runner].(phase := phase)])
  }

  // At most k requests per transcription are between counting and inserting.
  ghost predicate Next(s: System, step: Step, s': System, k: nat) {
    match step
    case RebuildSentences(t, count) => s' == s.(db := Rebuild(s.db, t, count))
    case CountActive(caller, key) =>
      caller !in s.callers && MayEnqueue(s.db, key)
      && s' == s.(callers := s.callers[caller := key])
      && |CallersOf(s', key.transcription)| <= k
    case InsertBatch(caller) =>
      caller in s.callers && s' == s.(db := s'.db, callers := s.callers - {caller})
      && (if HasSentence(s.db, s.callers[caller].transcription, s.callers[caller].startSeq)
          then Enqueued(s.db, s.callers[caller], s'.db) else s'.db == s.db)
    case GiveUpRequest(caller) => s' == s.(callers := s.callers - {caller})
    case ClaimBatch(runner, id, lockedUntil) =>
      runner in s.runners && s.runners[runner].phase == Idle
      && id in s.db.batches && Claimable(s.db, s.db.batches[id])
      && WithPhase(s, s', runner, Claimed(id, s.db.batches[id].key))
      && s'.db == Claim(s.db, id, s.runners[runner].name, lockedUntil)
    case LoadBatch(runner) =>
      runner in s.runners && s.runners[runner].phase.Claimed?
      && var p := s.runners[runner].phase;
         BatchLen(s.db, p.key) > 0
         && WithPhase(s, s', runner, Working(p.id, p.key, BatchLen(s.db, p.key), {})) && s'.db == s.db
    case StoreBreakdown(runner, position) =>
      runner in s.runners && s.runners[runner].phase.Working?
      && var p := s.runners[runner].phase;
         0 <= position < p.n
         && var stored := InsertBreakdown(s.db, p.key.transcription, p.key.startSeq + position, p.key.lang);
            if stored.None? then s' == s
            else
              s'.db == stored.value
              && WithPhase(s, s', runner, Working(p.id, p.key, p.n, p.inserted + {position}))
    case MarkDone(runner) =>
      runner in s.runners && s.runners[runner].phase.Working?
      && var p := s.runners[runner].phase;
         |p.inserted| * 2 >= p.n
         && WithPhase(s, s', runner, Idle) && s'.db == Mark(s.db, p.id, s.runners[runner].name, Done)
    case MarkFailed(runner) =>
      runner in s.runners && s.runners[runner].phase != Idle
      && WithPhase(s, s', runner, Idle)
      && s'.db == Mark(s.db, s.runners[runner].phase.id, s.runners[runner].name, Failed)
    case Crash(runner) =>
      runner in s.runners && WithPhase(s, s', runner, Idle) && s'.db == s.db
    case Tick(now) => now >= s.db.now && s' == s.(db := s.db.(now := now))
  }

  ghost predicate Init(s: System) {
    && s.db.batches == map[] && s.db.rows == {} && s.callers == map[]
    && forall r :: r in s.runners ==> s.runners[r].phase == Idle
  }

  // ---- What every run keeps ----

  ghost predicate HalfCovered(db: Db, key: Key) {
    |Covered(db, key)| * 2 >= BatchLen(db, key)
  }

  ghost predicate GoodBatch(db: Db, id: int)
    requires id in db.batches
  {
    var b := db.batches[id];
    && id < db.nextId
    && HasSentence(db, b.key.transcription, b.key.startSeq)
    && b.key.startSeq % SENTENCE_BATCH_SIZE == 0
    && (b.state == Running <==> b.lockedBy.Some?)
    && (b.state == Done ==> HalfCovered(db, b.key))
  }

  ghost predicate GoodDb(db: Db) {
    && (forall r :: r in db.rows ==> HasSentence(db, r.transcription, r.seqNo))
    && (forall id :: id in db.batches ==> GoodBatch(db, id))
    && (forall i, j :: i in db.batches && j in db.batches && i != j ==> db.batches[i].key != db.batches[j].key)
  }

  // While the claimed row exists, the runner's picture of the batch is still true.
  ghost predicate GoodPhase(db: Db, phase: Phase) {
    match phase
    case Idle => true
    case Claimed(id, key) => id < db.nextId && (id in db.batches ==> db.batches[id].key == key)
    case Working(id, key, n, inserted) =>
      && id < db.nextId
      && (id in db.batches ==>
           && db.batches[id].key == key && n == BatchLen(db, key)
           && forall p :: p in inserted ==> 0 <= p < n && HasRow(db, key, p))
  }

  ghost predicate Safe(s: System) {
    && GoodDb(s.db)
    && (forall r :: r in s.runners ==> GoodPhase(s.db, s.runners[r].phase))
    && (forall c :: c in s.callers ==> s.callers[c].startSeq % SENTENCE_BATCH_SIZE == 0)
  }

  ghost predicate Admitted(s: System, k: nat) {
    forall t :: |ActiveBatches(s.db, t)| + |CallersOf(s, t)| <= MAX_ACTIVE - 1 + k
  }

  // The positions of the batch that have a sentence.
  ghost function SentencePositions(db: Db, key: Key, p: nat): set<int> {
    set q: int | 0 <= q < p && HasSentenceAt(db, key, q)
  }

  ghost predicate HasSentenceAt(db: Db, key: Key, q: int) {
    HasSentence(db, key.transcription, key.startSeq + q)
  }

  // The length of a batch is their number.
  lemma {:induction false} BatchLenCounts(db: Db, key: Key, p: nat)
    ensures BatchLenBefore(db, key, p) == |SentencePositions(db, key, p)|
  {
    if p == 0 {
      assert SentencePositions(db, key, p) == {};
    } else {
      BatchLenCounts(db, key, p - 1);
      assert SentencePositions(db, key, p)
          == SentencePositions(db, key, p - 1) + (if HasSentenceAt(db, key, p - 1) then {p - 1} else {});
    }
  }

  // More rows and the same sentences keep everything that was true of a batch.
  ghost predicate Grows(db: Db, db': Db) {
    && db'.sentences == db.sentences && db.rows <= db'.rows && db.nextId <= db'.nextId
  }

  lemma CoverageGrows(db: Db, db': Db, key: Key)
    requires Grows(db, db')
    ensures BatchLen(db', key) == BatchLen(db, key)
    ensures HalfCovered(db, key) ==> HalfCovered(db', key)
  {
    assert forall p :: HasRow(db, key, p) ==> HasRow(db', key, p);
    SubsetSize(Covered(db, key), Covered(db', key));
  }

  lemma PhaseKept(db: Db, db': Db, phase: Phase)
    requires Grows(db, db') && GoodPhase(db, phase)
    requires forall id :: id in db'.batches && id < db.nextId ==>
      id in db.batches && db'.batches[id].key == db.batches[id].key
    ensures GoodPhase(db', phase)
  {
  }

  lemma DbKept(db: Db, db': Db)
    requires Grows(db, db') && GoodDb(db)
    requires db'.batches == db.batches
    requires forall r :: r in db'.rows ==> HasSentence(db', r.transcription, r.seqNo)
    ensures GoodDb(db')
  {
    forall id | id in db'.batches ensures GoodBatch(db', id) {
      assert GoodBatch(db, id);
      CoverageGrows(db, db', db.batches[id].key);
    }
  }

  // One batch changes its state but not its key.
  lemma BatchChanged(db: Db, db': Db, id: int)
    requires GoodDb(db) && id in db.batches
    requires db' == db.(batches := db'.batches, nextId := db'.nextId) && db'.nextId >= db.nextId
    requires id in db'.batches && db'.batches == db.batches[id := db'.batches[id]]
    requires db'.batches[id].key == db.batches[id].key && GoodBatch(db', id)
    ensures GoodDb(db')
  {
    forall i | i in db'.batches ensures GoodBatch(db', i) {
      if i != id {
        assert GoodBatch(db, i);
        CoverageGrows(db, db', db.batches[i].key);
      }
    }
  }

  lemma RebuildKeeps(s: System, t: int, count: nat)
    requires Safe(s)
    ensures Safe(s.(db := Rebuild(s.db, t, count)))
  {
    var db' := Rebuild(s.db, t, count);
    forall id | id in db'.batches ensures GoodBatch(db', id) {
      assert GoodBatch(s.db, id);
      OtherTranscription(s.db, t, count, db'.batches[id].key);
    }
    forall r | r in s.runners ensures GoodPhase(db', s.runners[r].phase) {
      var phase := s.runners[r].phase;
      assert GoodPhase(s.db, phase);
      if phase.Working? && phase.id in db'.batches {
        OtherTranscription(s.db, t, count, phase.key);
        assert forall p :: p in phase.inserted ==> HasRow(s.db, phase.key, p) ==> HasRow(db', phase.key, p);
      }
    }
  }

  // New sentences start without breakdowns, in any language, and without batches; what belongs to
  // other transcriptions stays.
  lemma RebuildStartsAfresh(db: Db, t: int, count: nat)
    ensures var db' := Rebuild(db, t, count);
      && (forall seqNo :: HasSentence(db', t, seqNo) <==> 0 <= seqNo < count)
      && (forall key: Key :: key.transcription == t ==> Covered(db', key) == {})
      && (forall r :: r in db'.rows <==> r in db.rows && r.transcription != t)
      && (forall id :: id in db'.batches <==> id in db.batches && db.batches[id].key.transcription != t)
      && (forall id :: id in db'.batches ==> db'.batches[id] == db.batches[id])
      && (forall u, seqNo :: u != t ==> (HasSentence(db', u, seqNo) <==> HasSentence(db, u, seqNo)))
      && db'.nextId == db.nextId && db'.now == db.now
  {
    forall key: Key | key.transcription == t ensures Covered(Rebuild(db, t, count), key) == {} {
      assert forall p :: !HasRow(Rebuild(db, t, count), key, p);
    }
  }

  lemma OtherTranscription(db: Db, t: int, count: nat, key: Key)
    requires key.transcription != t
    ensures var db' := Rebuild(db, t, count);
      BatchLen(db', key) == BatchLen(db, key) && Covered(db', key) == Covered(db, key)
  {
    var db' := Rebuild(db, t, count);
    assert forall p :: HasRow(db', key, p) <==> HasRow(db, key, p);
  }

  lemma EnqueueKeeps(db: Db, key: Key, db': Db) returns (id: int)
    requires GoodDb(db) && Enqueued(db, key, db') && key.startSeq % SENTENCE_BATCH_SIZE == 0
    ensures GoodDb(db')
    ensures Grows(db, db')
    ensures forall id :: id in db'.batches && id < db.nextId ==>
      id in db.batches && db'.batches[id].key == db.batches[id].key
    ensures forall id :: id in db.batches ==> id in db'.batches
    ensures forall t :: ActiveBatches(db', t) <= ActiveBatches(db, t) + (if t == key.transcription then {id} else {})
  {
    if exists i :: Joins(db, key, i, db') {
      id :| Joins(db, key, id, db');
      assert GoodBatch(db, id);
      CoverageGrows(db, db', key);
      BatchChanged(db, db', id);
    } else {
      id := db.nextId;
      forall i | i in db'.batches ensures GoodBatch(db', i) {
        if i in db.batches {
          assert GoodBatch(db, i);
          CoverageGrows(db, db', db.batches[i].key);
        }
      }
    }
  }

  lemma MarkKeeps(db: Db, id: int, name: string, state: BatchState)
    requires GoodDb(db) && (state == Done || state == Failed)
    requires state == Done && id in db.batches ==> HalfCovered(db, db.batches[id].key)
    ensures var db' := Mark(db, id, name, state);
      GoodDb(db') && Grows(db, db') && db'.batches.Keys == db.batches.Keys
      && (forall i :: i in db.batches ==> db'.batches[i].key == db.batches[i].key)
      && (forall t :: ActiveBatches(db', t) <= ActiveBatches(db, t))
  {
    var db' := Mark(db, id, name, state);
    if OwnedBy(db, id, name) {
      assert GoodBatch(db, id);
      CoverageGrows(db, db', db.batches[id].key);
      BatchChanged(db, db', id);
    }
  }

  lemma ClaimKeeps(db: Db, id: int, name: string, lockedUntil: int)
    requires GoodDb(db) && id in db.batches && Claimable(db, db.batches[id])
    ensures var db' := Claim(db, id, name, lockedUntil);
      GoodDb(db') && Grows(db, db') && db'.batches.Keys == db.batches.Keys
      && (forall i :: i in db.batches ==> db'.batches[i].key == db.batches[i].key)
      && (forall t :: ActiveBatches(db', t) <= ActiveBatches(db, t))
  {
    var db' := Claim(db, id, name, lockedUntil);
    assert GoodBatch(db, id);
    BatchChanged(db, db', id);
  }

  // A runner that may mark its batch done has stored at least half of what the batch still is.
  lemma WorkCoversHalf(db: Db, phase: Phase)
    requires phase.Working? && GoodPhase(db, phase) && phase.id in db.batches
    requires |phase.inserted| * 2 >= phase.n
    ensures HalfCovered(db, db.batches[phase.id].key)
  {
    assert forall p :: p in phase.inserted ==> p in Covered(db, phase.key);
    SubsetSize(phase.inserted, Covered(db, phase.key));
  }

  // Only one runner and the database change.
  lemma OneRunnerMoves(s: System, s': System, runner: int, phase: Phase)
    requires Safe(s) && runner in s.runners && WithPhase(s, s', runner, phase)
    requires GoodDb(s'.db) && Grows(s.db, s'.db) && GoodPhase(s'.db, phase)
    requires forall id :: id in s'.db.batches ==> id in s.db.batches && s'.db.batches[id].key == s.db.batches[id].key
    ensures Safe(s')
  {
    forall r | r in s'.runners ensures GoodPhase(s'.db, s'.runners[r].phase) {
      if r != runner {
        PhaseKept(s.db, s'.db, s.runners[r].phase);
      }
    }
  }

  lemma RunnerStepKeepsSafe(s: System, step: Step, s': System, k: nat)
    requires Safe(s) && Next(s, step, s', k)
    requires step.ClaimBatch? || step.LoadBatch? || step.StoreBreakdown? || step.MarkDone? || step.MarkFailed?
             || step.Crash?
    ensures Safe(s')
    ensures forall t :: ActiveBatches(s'.db, t) <= ActiveBatches(s.db, t)
  {
    var runner := step.runner;
    var phase := s.runners[runner].phase;
    assert GoodPhase(s.db, phase);
    match step
    case ClaimBatch(_, id, until) =>
      ClaimKeeps(s.db, id, s.runners[runner].name, until);
      assert GoodBatch(s.db, id);
      OneRunnerMoves(s, s', runner, Claimed(id, s.db.batches[id].key));
    case LoadBatch(_) =>
      OneRunnerMoves(s, s', runner, Working(phase.id, phase.key, BatchLen(s.db, phase.key), {}));
    case StoreBreakdown(_, position) =>
      if s' != s {
        DbKept(s.db, s'.db);
        CoverageGrows(s.db, s'.db, phase.key);
        OneRunnerMoves(s, s', runner, Working(phase.id, phase.key, phase.n, phase.inserted + {position}));
      }
    case MarkDone(_) =>
      if phase.id in s.db.batches {
        WorkCoversHalf(s.db, phase);
      }
      MarkKeeps(s.db, phase.id, s.runners[runner].name, Done);
      OneRunnerMoves(s, s', runner, Idle);
    case MarkFailed(_) =>
      MarkKeeps(s.db, phase.id, s.runners[runner].name, Failed);
      OneRunnerMoves(s, s', runner, Idle);
    case Crash(_) =>
      OneRunnerMoves(s, s', runner, Idle);
  }

  lemma TickKeepsSafe(s: System, now: int)
    requires Safe(s)
    ensures Safe(s.(db := s.db.(now := now)))
  {
    var s' := s.(db := s.db.(now := now));
    DbKept(s.db, s'.db);
    forall r | r in s'.runners ensures GoodPhase(s'.db, s'.runners[r].phase) {
      PhaseKept(s.db, s'.db, s.runners[r].phase);
    }
  }

  lemma InsertKeepsSafe(s: System, caller: int, s': System, k: nat)
    requires Safe(s) && Next(s, InsertBatch(caller), s', k)
    ensures Safe(s')
  {
    if s'.db != s.db {
      var _ := EnqueueKeeps(s.db, s.callers[caller], s'.db);
      forall r | r in s'.runners ensures GoodPhase(s'.db, s'.runners[r].phase) {
        PhaseKept(s.db, s'.db, s.runners[r].phase);
      }
    }
  }

  lemma NextKeepsSafe(s: System, step: Step, s': System, k: nat)
    requires Safe(s) && Next(s, step, s', k)
    ensures Safe(s')
  {
    match step
    case RebuildSentences(t, count) => RebuildKeeps(s, t, count);
    case CountActive(_, _) =>
    case InsertBatch(caller) => InsertKeepsSafe(s, caller, s', k);
    case GiveUpRequest(_) =>
    case Tick(now) => TickKeepsSafe(s, now);
    case _ => RunnerStepKeepsSafe(s, step, s', k);
  }

  // Counting admits a caller, inserting turns it into at most one active batch, and nothing else adds.
  lemma NextKeepsAdmitted(s: System, step: Step, s': System, k: nat)
    requires Safe(s) && Admitted(s, k) && Next(s, step, s', k)
    ensures Admitted(s', k)
  {
    forall t ensures |ActiveBatches(s'.db, t)| + |CallersOf(s', t)| <= MAX_ACTIVE - 1 + k {
      match step
      case RebuildSentences(_, _) =>
        SubsetSize(ActiveBatches(s'.db, t), ActiveBatches(s.db, t));
      case CountActive(caller, key) =>
        assert t != key.transcription ==> CallersOf(s', t) == CallersOf(s, t);
      case InsertBatch(caller) =>
        InsertIsCounted(s, caller, s', k, t);
      case GiveUpRequest(caller) =>
        SubsetSize(CallersOf(s', t), CallersOf(s, t));
      case Tick(_) =>
        assert ActiveBatches(s'.db, t) == ActiveBatches(s.db, t);
      case _ =>
        RunnerStepKeepsSafe(s, step, s', k);
        SubsetSize(ActiveBatches(s'.db, t), ActiveBatches(s.db, t));
        assert CallersOf(s', t) == CallersOf(s, t);
    }
  }

  lemma InsertIsCounted(s: System, caller: int, s': System, k: nat, t: int)
    requires Safe(s) && Next(s, InsertBatch(caller), s', k)
    ensures |ActiveBatches(s'.db, t)| + |CallersOf(s', t)| <= |ActiveBatches(s.db, t)| + |CallersOf(s, t)|
  {
    var key := s.callers[caller];
    assert CallersOf(s', t) == CallersOf(s, t) - {caller};
    if s'.db != s.db {
      var id := EnqueueKeeps(s.db, key, s'.db);
      if t == key.transcription {
        assert caller in CallersOf(s, t);
        SubsetSize(ActiveBatches(s'.db, t), ActiveBatches(s.db, t) + {id});
      } else {
        SubsetSize(ActiveBatches(s'.db, t), ActiveBatches(s.db, t));
      }
    }
  }

  // ---- What one step does to one batch ----

  ghost predicate Rebuilds(step: Step, t: int) { step.RebuildSentences? && step.transcription == t }

  // A runner that may, leases the batch for the given time.
  ghost predicate ClaimedBy(db: Db, db': Db, id: int, name: string, lockedUntil: int) {
    && id in db.batches && id in db'.batches
    && var b, b' := db.batches[id], db'.batches[id];
       && (b.state == Pending || (b.state == Running && b.lockedUntil < db.now))
       && b'.state == Running && b'.lockedBy == Some(name) && b'.lockedUntil == lockedUntil
       && b'.key == b.key && b'.createdAt == b.createdAt
  }

  // The runner that holds the lease ends the batch, and the lease is gone.
  ghost predicate EndedBy(db: Db, db': Db, id: int, name: string, state: BatchState) {
    && id in db.batches && id in db'.batches
    && var b, b' := db.batches[id], db'.batches[id];
       && b.state == Running && b.lockedBy == Some(name)
       && b'.state == state && b'.lockedBy == None && b'.lockedUntil == 0
       && b'.key == b.key && b'.createdAt == b.createdAt
  }

  // From a claim on, at any later time, the batch is the claimer's alone, and it can be claimed again
  // exactly after the expiry.
  lemma OwnedOrClaimable(db: Db, id: int, name: string, lockedUntil: int, later: int, other: string)
    requires id in db.batches && Claimable(db, db.batches[id])
    ensures var db' := Claim(db, id, name, lockedUntil).(now := later);
      && (OwnedBy(db', id, other) <==> other == name)
      && (Claimable(db', db'.batches[id]) <==> lockedUntil < later)
  {
  }

  // A failed batch becomes pending again in its old place.
  ghost predicate Revived(db: Db, db': Db, id: int) {
    && id in db.batches && id in db'.batches && db.batches[id].state == Failed
    && var b, b' := db.batches[id], db'.batches[id];
       && b'.state == Pending && b'.key == b.key && b'.createdAt == b.createdAt
  }

  // Whether the runner's step is about this batch and the lease is its own.
  ghost predicate Ends(s: System, runner: int, id: int) {
    && runner in s.runners && s.runners[runner].phase != Idle && s.runners[runner].phase.id == id
    && OwnedBy(s.db, id, s.runners[runner].name)
  }

  lemma EachBatchMoves(s: System, step: Step, s': System, k: nat, id: int)
    requires Safe(s) && Next(s, step, s', k) && id in s.db.batches
    ensures id in s'.db.batches <==> !Rebuilds(step, s.db.batches[id].key.transcription)
    ensures id in s'.db.batches ==>
      if step.ClaimBatch? && step.id == id then
        ClaimedBy(s.db, s'.db, id, s.runners[step.runner].name, step.lockedUntil)
      else if step.MarkDone? && Ends(s, step.runner, id) then
        EndedBy(s.db, s'.db, id, s.runners[step.runner].name, Done)
      else if step.MarkFailed? && Ends(s, step.runner, id) then
        EndedBy(s.db, s'.db, id, s.runners[step.runner].name, Failed)
      else if step.InsertBatch? && s.callers[step.caller] == s.db.batches[id].key
              && s.db.batches[id].state == Failed then
        Revived(s.db, s'.db, id)
      else s'.db.batches[id] == s.db.batches[id]
  {
    match step
    case RebuildSentences(t, count) => RebuildStartsAfresh(s.db, t, count);
    case InsertBatch(caller) =>
      if s'.db != s.db {
        InsertMoves(s.db, s.callers[caller], s'.db, id);
      } else {
        assert GoodBatch(s.db, id);
      }
    case _ =>
  }

  lemma InsertMoves(db: Db, key: Key, db': Db, id: int)
    requires GoodDb(db) && Enqueued(db, key, db') && id in db.batches
    ensures id in db'.batches
    ensures if db.batches[id].key == key && db.batches[id].state == Failed then Revived(db, db', id)
            else db'.batches[id] == db.batches[id]
  {
    assert GoodBatch(db, id);
    if i :| Joins(db, key, i, db') {
      assert i != id ==> db.batches[i].key != db.batches[id].key;
    }
  }

  // A batch appears only for a waiting request without one, pending and with the time of the insert.
  lemma NewBatchIsPending(s: System, step: Step, s': System, k: nat, id: int)
    requires Safe(s) && Next(s, step, s', k) && id !in s.db.batches && id in s'.db.batches
    ensures step.InsertBatch? && step.caller in s.callers && id == s.db.nextId < s'.db.nextId
    ensures s'.db.batches[id] == Batch(s.callers[step.caller], Pending, None, 0, s.db.now)
    ensures forall i :: i in s.db.batches ==> s.db.batches[i].key != s.callers[step.caller]
  {
    if step.RebuildSentences? {
      RebuildStartsAfresh(s.db, step.transcription, step.count);
    }
  }

  // The step stores this row: the runner is at a batch of it, and the sentence exists.
  ghost predicate Stores(s: System, step: Step, r: Row) {
    && step.StoreBreakdown? && step.runner in s.runners && s.runners[step.runner].phase.Working?
    && HasSentence(s.db, r.transcription, r.seqNo)
    && var key := s.runners[step.runner].phase.key;
       r.transcription == key.transcription && r.seqNo == key.startSeq + step.position && r.lang == key.lang
  }

  lemma RowMoves(s: System, step: Step, s': System, k: nat, r: Row)
    requires Next(s, step, s', k)
    ensures r in s'.db.rows <==> (r in s.db.rows && !Rebuilds(step, r.transcription)) || Stores(s, step, r)
  {
    if step.RebuildSentences? {
      RebuildStartsAfresh(s.db, step.transcription, step.count);
    }
  }

  // ---- Whole runs ----

  ghost predicate IsRun(run: seq<System>, steps: seq<Step>, k: nat) {
    && |run| == |steps| + 1 && Init(run[0])
    && forall i, j :: 0 <= i < j < |run| && j == i + 1 ==> Next(run[i], steps[i], run[j], k)
  }

  ghost predicate Reachable(s: System, k: nat) {
    exists run: seq<System>, steps: seq<Step> :: IsRun(run, steps, k) && run[|run| - 1] == s
  }

  lemma InitIsReachable(s: System, k: nat)
    requires Init(s)
    ensures Reachable(s, k)
  {
    assert IsRun([s], [], k) && [s][|[s]| - 1] == s;
  }

  lemma StepIsReachable(s: System, step: Step, s': System, k: nat)
    requires Reachable(s, k) && Next(s, step, s', k)
    ensures Reachable(s', k)
  {
    hide Next, Init;
    var run: seq<System>, steps: seq<Step> :| IsRun(run, steps, k) && run[|run| - 1] == s;
    var run', steps' := run + [s'], steps + [step];
    forall i, j | 0 <= i < j < |run'| && j == i + 1 ensures Next(run'[i], steps'[i], run'[j], k) {
      assert i < |steps| ==> Next(run[i], steps[i], run[j], k);
    }
    assert IsRun(run', steps', k) && run'[|run'| - 1] == s';
  }

  lemma {:induction false} RunIsSafe(run: seq<System>, steps: seq<Step>, k: nat, i: nat)
    requires IsRun(run, steps, k) && i < |run|
    ensures Safe(run[i]) && Admitted(run[i], k)
  {
    if i == 0 {
      forall t ensures |ActiveBatches(run[0].db, t)| + |CallersOf(run[0], t)| <= MAX_ACTIVE - 1 + k {
        assert ActiveBatches(run[0].db, t) == {} && CallersOf(run[0], t) == {};
      }
    } else {
      RunIsSafe(run, steps, k, i - 1);
      assert Next(run[i - 1], steps[i - 1], run[i], k);
      NextKeepsSafe(run[i - 1], steps[i - 1], run[i], k);
      NextKeepsAdmitted(run[i - 1], steps[i - 1], run[i], k);
    }
  }

  // In every reachable state a done batch has stored breakdowns for at least half of its sentences,
  // and its first sentence exists.
  lemma DoneBatchHasBreakdowns(run: seq<System>, steps: seq<Step>, k: nat, i: nat, id: int)
    requires IsRun(run, steps, k) && i < |run|
    requires id in run[i].db.batches && run[i].db.batches[id].state == Done
    ensures var db, key := run[i].db, run[i].db.batches[id].key;
      var sentences := set p: int | 0 <= p < SENTENCE_BATCH_SIZE && HasSentenceAt(db, key, p);
      var explained := set p: int | p in sentences && Row(key.transcription, key.startSeq + p, key.lang) in db.rows;
      0 in sentences && |explained| * 2 >= |sentences|
  {
    RunIsSafe(run, steps, k, i);
    var db, key := run[i].db, run[i].db.batches[id].key;
    assert GoodBatch(db, id);
    BatchLenCounts(db, key, SENTENCE_BATCH_SIZE);
    CoveredAreExplained(db, key);
  }

  // From a first sentence on, the positions with a sentence come before the others.
  lemma CoveredAreExplained(db: Db, key: Key)
    requires HasSentence(db, key.transcription, key.startSeq)
    ensures var sentences := SentencePositions(db, key, SENTENCE_BATCH_SIZE);
      var explained := set p: int | p in sentences && Row(key.transcription, key.startSeq + p, key.lang) in db.rows;
      |explained| >= |Covered(db, key)|
  {
    var sentences := SentencePositions(db, key, SENTENCE_BATCH_SIZE);
    var explained := set p: int | p in sentences && Row(key.transcription, key.startSeq + p, key.lang) in db.rows;
    SubsetSize(Covered(db, key), explained);
  }

  // With at most k requests in the gap, a transcription never has more than two plus k active batches.
  lemma ActiveBatchesBounded(run: seq<System>, steps: seq<Step>, k: nat, i: nat, t: int)
    requires IsRun(run, steps, k) && i < |run|
    ensures var batches := run[i].db.batches;
      |set id | id in batches && batches[id].key.transcription == t
                && (batches[id].state == Pending || batches[id].state == Running)| <= 2 + k
  {
    RunIsSafe(run, steps, k, i);
    var batches := run[i].db.batches;
    var active := set id | id in batches && batches[id].key.transcription == t
                           && (batches[id].state == Pending || batches[id].state == Running);
    assert forall id :: id in active ==> id in ActiveBatches(run[i].db, t);
    SubsetSize(active, ActiveBatches(run[i].db, t));
  }

  // No step brings a row back or touches a done one; only rebuilding its sentences removes it.
  lemma StepKeepsDone(s: System, step: Step, s': System, k: nat, id: int)
    requires Safe(s) && Next(s, step, s', k) && id < s.db.nextId
    ensures id < s'.db.nextId
    ensures id !in s.db.batches ==> id !in s'.db.batches
    ensures id in s.db.batches && s.db.batches[id].state == Done ==>
      (id in s'.db.batches <==> !Rebuilds(step, s.db.batches[id].key.transcription))
      && (id in s'.db.batches ==> s'.db.batches[id] == s.db.batches[id])
  {
    if step.InsertBatch? && s'.db != s.db {
      var _ := EnqueueKeeps(s.db, s.callers[step.caller], s'.db);
    }
  }

  // Done is final: for the rest of any run the row stays as it is, until its sentences are rebuilt
  // and it is gone for ever.
  lemma {:induction false} DoneIsFinal(run: seq<System>, steps: seq<Step>, k: nat, i: nat, n: nat, id: int)
    requires IsRun(run, steps, k) && i <= n < |run|
    requires id in run[i].db.batches && run[i].db.batches[id].state == Done
    ensures var t := run[i].db.batches[id].key.transcription;
      id in run[n].db.batches <==> forall j :: i <= j < n ==> !Rebuilds(steps[j], t)
    ensures id in run[n].db.batches ==> run[n].db.batches[id] == run[i].db.batches[id]
    ensures id < run[n].db.nextId
  {
    hide Next, Safe, Admitted;
    if i == n {
      IdIsDrawn(run, steps, k, i, id);
    } else {
      DoneIsFinal(run, steps, k, i, n - 1, id);
      RunIsSafe(run, steps, k, n - 1);
      assert Next(run[n - 1], steps[n - 1], run[n], k);
      StepKeepsDone(run[n - 1], steps[n - 1], run[n], k, id);
    }
  }

  lemma IdIsDrawn(run: seq<System>, steps: seq<Step>, k: nat, i: nat, id: int)
    requires IsRun(run, steps, k) && i < |run| && id in run[i].db.batches
    ensures id < run[i].db.nextId
  {
    RunIsSafe(run, steps, k, i);
    assert GoodBatch(run[i].db, id);
  }

  // A breakdown is stored exactly if some runner stored it after its sentences were last rebuilt.
  lemma {:induction false} RowsAreStoredSinceRebuild(run: seq<System>, steps: seq<Step>, k: nat, n: nat, r: Row)
    requires IsRun(run, steps, k) && n < |run|
    ensures r in run[n].db.rows <==>
      exists m :: 0 <= m < n && Stores(run[m], steps[m], r)
                  && forall j :: m < j < n ==> !Rebuilds(steps[j], r.transcription)
  {
    hide Next, Stores;
    if n > 0 {
      RowsAreStoredSinceRebuild(run, steps, k, n - 1, r);
      assert Next(run[n - 1], steps[n - 1], run[n], k);
      RowMoves(run[n - 1], steps[n - 1], run[n], k, r);
    }
  }

  lemma TimePasses(s: System, step: Step, s': System, k: nat)
    requires Next(s, step, s', k)
    ensures s'.db.now >= s.db.now && s'.db.nextId >= s.db.nextId
  {
  }

  // Batches are numbered in the order of their creation.
  lemma {:induction false} BatchesArriveInOrder(
    run: seq<System>, steps: seq<Step>, k: nat, n: nat, i: int, j: int)
    requires IsRun(run, steps, k) && n < |run| && i in run[n].db.batches && j in run[n].db.batches && i <= j
    ensures run[n].db.batches[i].createdAt <= run[n].db.batches[j].createdAt <= run[n].db.now
  {
    hide Next, Safe, Admitted;
    if n > 0 {
      RunIsSafe(run, steps, k, n - 1);
      var s, step, s' := run[n - 1], steps[n - 1], run[n];
      assert Next(s, step, s', k);
      TimePasses(s, step, s', k);
      BatchStays(s, step, s', k, i);
      BatchStays(s, step, s', k, j);
      if i in s.db.batches {
        if j in s.db.batches {
          BatchesArriveInOrder(run, steps, k, n - 1, i, j);
        } else {
          BatchesArriveInOrder(run, steps, k, n - 1, i, i);
        }
      }
    }
  }

  lemma BatchStays(s: System, step: Step, s': System, k: nat, id: int)
    requires Safe(s) && Next(s, step, s', k) && id in s'.db.batches
    ensures if id in s.db.batches then id < s.db.nextId && s'.db.batches[id].createdAt == s.db.batches[id].createdAt
            else id == s.db.nextId && s'.db.batches[id].createdAt == s.db.now
  {
    if id in s.db.batches {
      EachBatchMoves(s, step, s', k, id);
      assert GoodBatch(s.db, id);
    } else {
      NewBatchIsPending(s, step, s', k, id);
    }
    hide Next;
  }
}
