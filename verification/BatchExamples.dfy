/** A reachable state in which asking again after a failure does not retry. */
module BatchExamples {
  import opened Wrappers
  import opened BatchQueue
  import BatchStore

  const KEY := Key(1, 0, "en")

  // One runner and no sentences yet.
  const START := System(Db(map[], {}, map[], 1, 0), map[5 := Runner("r", Idle)], map[])

  // A transcription of three sentences whose batch is claimed and loaded.
  lemma Loaded(k: nat) returns (s: System)
    requires k >= 1
    ensures Reachable(s, k)
    ensures s == System(
      Db(map[1 := 3], {}, map[1 := Batch(KEY, Running, Some("r"), 10, 0)], 2, 0),
      map[5 := Runner("r", Working(1, KEY, 3, {}))], map[])
  {
    hide Reachable;
    s := Requested(k);
    var claimed := s.(db := Claim(s.db, 1, "r", 10), runners := map[5 := Runner("r", Claimed(1, KEY))]);
    StepIsReachable(s, ClaimBatch(5, 1, 10), claimed, k);
    s := claimed.(runners := map[5 := Runner("r", Working(1, KEY, 3, {}))]);
    StepIsReachable(claimed, LoadBatch(5), s, k);
  }

  lemma Requested(k: nat) returns (s: System)
    requires k >= 1
    ensures Reachable(s, k)
    ensures s == START.(db := Db(map[1 := 3], {}, map[1 := Batch(KEY, Pending, None, 0, 0)], 2, 0))
  {
    InitIsReachable(START, k);
    hide Reachable;
    var built := START.(db := Rebuild(START.db, 1, 3));
    StepIsReachable(START, RebuildSentences(1, 3), built, k);
    var counted := built.(callers := map[0 := KEY]);
    assert ActiveBatches(built.db, 1) == {};
    assert CallersOf(counted, 1) == {0};
    StepIsReachable(built, CountActive(0, KEY), counted, k);
    s := START.(db := Db(map[1 := 3], {}, map[1 := Batch(KEY, Pending, None, 0, 0)], 2, 0));
    assert counted.callers - {0} == map[];
    StepIsReachable(counted, InsertBatch(0), s, k);
  }

  // One of three sentences is stored before the batch fails; quota and queue have room, and still
  // a request inserts nothing.
  lemma FailedBatchIsNotRetried(k: nat) returns (s: System)
    requires k >= 1
    ensures Reachable(s, k)
    ensures 1 in s.db.batches && s.db.batches[1].key == KEY && s.db.batches[1].state == Failed
    ensures |ActiveBatches(s.db, 1)| == 0 && !BatchStore.WantsBatch(s.db, KEY, true)
  {
    s := Loaded(k);
    hide Reachable;
    var working := Working(1, KEY, 3, s.runners[5].phase.inserted + {0});
    var stored := s.(db := InsertBreakdown(s.db, 1, 0, "en").value, runners := map[5 := Runner("r", working)]);
    StepIsReachable(s, StoreBreakdown(5, 0), stored, k);
    s := stored.(db := Mark(stored.db, 1, "r", Failed), runners := map[5 := Runner("r", Idle)]);
    StepIsReachable(stored, MarkFailed(5), s, k);
    assert ActiveBatches(s.db, 1) == {};
    assert HasRow(s.db, KEY, 0) && 0 in Covered(s.db, KEY);
  }
}
