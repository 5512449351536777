/** The tables behind the batch queue as mutable state: every statement refines its relation. */
module BatchStore {
  import opened Constants
  import opened Sets
  import opened Wrappers
  import opened BatchQueue
  import opened Sentences

  datatype SentenceKey = SentenceKey(transcription: int, seqNo: int)

  ghost predicate IsOldestClaimable(db: Db, skipLocked: set<int>, id: int) {
    && id in db.batches && id !in skipLocked && Claimable(db, db.batches[id])
    && forall j :: j in db.batches && j !in skipLocked && Claimable(db, db.batches[j]) ==>
         db.batches[id].createdAt <= db.batches[j].createdAt
  }

  datatype Answer = NoSentences | Proceed | NoQuota | QueueFull

  ghost predicate HasUnfailed(db: Db, key: Key) {
    exists id :: id in db.batches && db.batches[id].key == key && db.batches[id].state != Failed
  }

  // A request inserts or revives a batch only if it has sentences, none of them has a breakdown,
  // no unfailed batch is there, and quota and queue have room.
  ghost predicate WantsBatch(db: Db, key: Key, quotaOk: bool) {
    && BatchLen(db, key) > 0 && Covered(db, key) == {} && !HasUnfailed(db, key)
    && quotaOk && |ActiveBatches(db, key.transcription)| < MAX_ACTIVE
  }

  // In a reachable state a request for a failed batch retries it exactly when none of its
  // sentences has a breakdown and quota and queue have room.
  lemma FailedIsRetriedExactly(s: System, id: int, quotaOk: bool)
    requires Safe(s) && id in s.db.batches && s.db.batches[id].state == Failed
    ensures var key := s.db.batches[id].key;
      WantsBatch(s.db, key, quotaOk)
      <==> Covered(s.db, key) == {} && quotaOk && |ActiveBatches(s.db, key.transcription)| < MAX_ACTIVE
  {
    assert GoodBatch(s.db, id);
  }

  // A request may go on after counting exactly while fewer than three batches are pending or running.
  lemma RequestMayCountExactly(s: System, caller: int, key: Key, k: nat)
    requires caller !in s.callers && |CallersOf(s, key.transcription)| < k && key.startSeq % SENTENCE_BATCH_SIZE == 0
    ensures var batches := s.db.batches;
      var active := set id | id in batches && batches[id].key.transcription == key.transcription
                             && (batches[id].state == Pending || batches[id].state == Running);
      (exists s' :: Next(s, CountActive(caller, key), s', k)) <==> |active| < 3
  {
    var batches := s.db.batches;
    var active := set id | id in batches && batches[id].key.transcription == key.transcription
                           && (batches[id].state == Pending || batches[id].state == Running);
    assert forall id :: id in active <==> id in ActiveBatches(s.db, key.transcription);
    assert active == ActiveBatches(s.db, key.transcription);
    var s' := s.(callers := s.callers[caller := key]);
    assert CallersOf(s', key.transcription) == CallersOf(s, key.transcription) + {caller};
    if |active| < 3 {
      assert Next(s, CountActive(caller, key), s', k);
    }
  }

  // Enqueueing a wanted batch is counting and then inserting.
  lemma RequestIsSteps(s: System, caller: int, key: Key, quotaOk: bool, db': Db, k: nat)
    returns (counted: System, s': System)
    requires caller !in s.callers && |CallersOf(s, key.transcription)| < k && key.startSeq % SENTENCE_BATCH_SIZE == 0
    requires WantsBatch(s.db, key, quotaOk) && Enqueued(s.db, key, db')
    ensures Next(s, CountActive(caller, key), counted, k) && Next(counted, InsertBatch(caller), s', k)
    ensures s' == s.(db := db')
  {
    counted := s.(callers := s.callers[caller := key]);
    assert CallersOf(counted, key.transcription) == CallersOf(s, key.transcription) + {caller};
    s' := s.(db := db');
    assert counted.callers - {caller} == s.callers;
  }

  // Batches are claimed in the order of their arrival: a claim passes over a claimable batch that came
  // earlier only if both were created at the same time.
  lemma ClaimsInOrderOfArrival(
    run: seq<System>, steps: seq<Step>, k: nat, n: nat, skipLocked: set<int>, id: int, earlier: int)
    requires IsRun(run, steps, k) && n < |run| && IsOldestClaimable(run[n].db, skipLocked, id)
    requires earlier in run[n].db.batches && earlier !in skipLocked
    requires Claimable(run[n].db, run[n].db.batches[earlier]) && earlier < id
    ensures run[n].db.batches[earlier].createdAt == run[n].db.batches[id].createdAt
  {
    BatchesArriveInOrder(run, steps, k, n, earlier, id);
  }

  class Store {
    var sentences: map<SentenceKey, SentenceRow>
    var rows: set<Row>
    var batches: map<int, Batch>
    var nextId: int
    var now: int
    ghost var counts: map<int, nat>  // how many sentences each transcription has

    ghost function State(): Db
      reads this
    {
      Db(counts, rows, batches, nextId, now)
    }

    // The sentences of a transcription are numbered 0, 1, ... without gaps.
    ghost predicate Valid()
      reads this
    {
      forall t, s :: SentenceKey(t, s) in sentences <==> HasSentence(State(), t, s)
    }

    constructor (now: int)
      ensures Valid() && State() == Db(map[], {}, map[], 1, now)
    {
      sentences, rows, batches, nextId, this.now, counts := map[], {}, map[], 1, now, map[];
    }

    method CountActiveBreakdownBatches(transcription: int) returns (count: nat)
      ensures count == |ActiveBatches(State(), transcription)|
    {
      var active := set id | id in batches && batches[id].key.transcription == transcription && IsActive(batches[id]);
      assert active == ActiveBatches(State(), transcription);
      return |active|;
    }

    // None when the first sentence of the batch does not exist.
    method EnqueueBreakdownBatch(key: Key) returns (state: Option<BatchState>)
      requires Valid()
      modifies this`batches, this`nextId
      ensures Valid()
      ensures state.None? ==> !HasSentence(old(State()), key.transcription, key.startSeq) && State() == old(State())
      ensures state.Some? ==> Enqueued(old(State()), key, State())
      ensures state.Some? && !HasUnfailed(old(State()), key) ==> state.value == Pending
      ensures state.Some? ==> exists id :: id in batches && batches[id].key == key && batches[id].state == state.value
    {
      if SentenceKey(key.transcription, key.startSeq) !in sentences {
        return None;
      }
      var same := set id | id in batches && batches[id].key == key;
      if same == {} {
        batches := batches[nextId := Batch(key, Pending, None, 0, now)];
        state := Some(Pending);
        assert batches[nextId].key == key;
        assert forall id :: id in old(batches) ==> (id in same <==> old(batches)[id].key == key);
      } else {
        var id := Any(same);
        batches := batches[id := if batches[id].state == Failed then batches[id].(state := Pending) else batches[id]];
        state := Some(batches[id].state);
      }
      nextId := nextId + 1;
      assert same != {} ==> exists id :: Joins(old(State()), key, id, State()) by {
        if same != {} {
          var id :| id in same && batches == old(batches)[id := Requeued(old(batches)[id])];
          assert Joins(old(State()), key, id, State());
        }
      }
    }

    // How many sentences the batch has.
    method BatchSize(key: Key) returns (len: nat)
      requires Valid()
      ensures len == BatchLen(State(), key)
    {
      len := 0;
      for p := 0 to SENTENCE_BATCH_SIZE
        invariant len == BatchLenBefore(State(), key, p)
      {
        if SentenceKey(key.transcription, key.startSeq + p) in sentences {
          len := len + 1;
        }
      }
    }

    method HasBreakdown(key: Key, len: nat) returns (found: bool)
      requires len == BatchLen(State(), key)
      ensures found <==> Covered(State(), key) != {}
    {
      for p := 0 to len
        invariant forall q :: 0 <= q < p ==> !HasRow(State(), key, q)
      {
        if Row(key.transcription, key.startSeq + p, key.lang) in rows {
          assert p in Covered(State(), key);
          return true;
        }
      }
      return false;
    }

    method HasUnfailedBatch(key: Key) returns (found: bool)
      ensures found <==> HasUnfailed(State(), key)
    {
      var same := set id | id in batches && batches[id].key == key && batches[id].state != Failed;
      if same == {} {
        assert forall id :: id in batches && batches[id].key == key && batches[id].state != Failed ==> id in same;
        return false;
      }
      var id := Any(same);
      return true;
    }

    // One request of a visitor; the process model lets other steps come between its queries.
    method EnqueueBreakdowns(transcription: int, lang: string, sentSeq: int, quotaOk: bool) returns (answer: Answer)
      requires Valid()
      modifies this`batches, this`nextId
      ensures Valid()
      ensures var key := Key(transcription, BatchStart(sentSeq), lang);
        if WantsBatch(old(State()), key, quotaOk) then
          answer == Proceed && Enqueued(old(State()), key, State())
          && exists id :: id in batches && batches[id].key == key && batches[id].state == Pending
        else
          State() == old(State())
          && answer == if BatchLen(State(), key) == 0 then NoSentences
                       else if Covered(State(), key) != {} || HasUnfailed(State(), key) then Proceed
                       else if !quotaOk then NoQuota else QueueFull
    {
      var key := Key(transcription, BatchStart(sentSeq), lang);
      var len := BatchSize(key);
      if len == 0 {
        return NoSentences;
      }
      var stored := HasBreakdown(key, len);
      if stored {
        return Proceed;
      }
      var found := HasUnfailedBatch(key);
      if found {
        return Proceed;
      }
      if !quotaOk {
        return NoQuota;
      }
      var active := CountActiveBreakdownBatches(transcription);
      if active >= MAX_ACTIVE {
        return QueueFull;
      }
      var state := EnqueueBreakdownBatch(key);
      return Proceed;
    }

    // The oldest claimable batch that no other transaction has locked.
    method ClaimBreakdownBatch(name: string, lockedUntil: int, skipLocked: set<int>)
      returns (claimed: Option<(int, Key)>)
      modifies this`batches
      ensures claimed.None? ==> State() == old(State())
      ensures claimed.None? ==> forall id :: id in batches && id !in skipLocked ==> !Claimable(State(), batches[id])
      ensures claimed.Some? ==> IsOldestClaimable(old(State()), skipLocked, claimed.value.0)
      ensures claimed.Some? ==> claimed.value.1 == old(batches)[claimed.value.0].key
      ensures claimed.Some? ==> State() == Claim(old(State()), claimed.value.0, name, lockedUntil)
    {
      var todo := batches.Keys - skipLocked;
      var best: Option<int> := None;
      while todo != {}
        invariant unchanged(this)
        invariant todo <= batches.Keys - skipLocked
        invariant best.Some? ==>
          best.value in batches && best.value !in skipLocked && Claimable(State(), batches[best.value])
        invariant forall j :: j in batches && j !in skipLocked && j !in todo && Claimable(State(), batches[j]) ==>
          best.Some? && batches[best.value].createdAt <= batches[j].createdAt
        decreases todo
      {
        var id := Any(todo);
        var b := batches[id];
        if b.state == Pending || (b.state == Running && b.lockedUntil < now) {
          if best.None? || b.createdAt < batches[best.value].createdAt {
            best := Some(id);
          }
        }
        todo := todo - {id};
      }
      if best.None? {
        return None;
      }
      var id := best.value;
      var key := batches[id].key;
      batches := batches[id := batches[id].(state := Running, lockedBy := Some(name), lockedUntil := lockedUntil)];
      return Some((id, key));
    }

    method MarkBatch(id: int, name: string, state: BatchState) returns (marked: bool)
      modifies this`batches
      ensures State() == Mark(old(State()), id, name, state)
      ensures marked <==> OwnedBy(old(State()), id, name)
    {
      if id in batches && batches[id].state == Running && batches[id].lockedBy == Some(name) {
        batches := batches[id := batches[id].(state := state, lockedBy := None, lockedUntil := 0)];
        return true;
      }
      return false;
    }

    method InsertSentenceBreakdown(transcription: int, seqNo: int, lang: string) returns (ok: bool)
      requires Valid()
      modifies this`rows
      ensures Valid()
      ensures match InsertBreakdown(old(State()), transcription, seqNo, lang)
              case None => !ok && State() == old(State())
              case Some(db) => ok && State() == db
    {
      if SentenceKey(transcription, seqNo) !in sentences {
        return false;
      }
      rows := rows + {Row(transcription, seqNo, lang)};
      return true;
    }

    // Delete all, then insert with sequence numbers 0, 1, ..., as one transaction, which a sentence
    // that fails the checks of the table rolls back.
    method UpsertSentences(transcription: int, sents: seq<Sentence>) returns (ok: bool)
      requires Valid()
      modifies this`sentences, this`rows, this`batches, this`counts
      ensures Valid()
      ensures ok <==> forall i :: 0 <= i < |sents| ==> RowChecks(RowOf(sents[i]))
      ensures !ok ==> State() == old(State()) && sentences == old(sentences)
      ensures ok ==> State() == Rebuild(old(State()), transcription, |sents|)
      ensures ok ==> forall r :: r in rows <==> r in old(rows) && r.transcription != transcription
      ensures ok ==> forall id :: id in batches <==>
        id in old(batches) && old(batches)[id].key.transcription != transcription
      ensures ok ==> forall id :: id in batches ==> batches[id] == old(batches)[id]
      ensures ok ==> forall s :: SentenceKey(transcription, s) in sentences <==> 0 <= s < |sents|
      ensures ok ==> forall s :: 0 <= s < |sents| ==> sentences[SentenceKey(transcription, s)] == RowOf(sents[s])
      ensures ok ==> forall k: SentenceKey :: k.transcription != transcription ==>
        (k in sentences <==> k in old(sentences)) && (k in sentences ==> sentences[k] == old(sentences)[k])
    {
      var kept := map k | k in sentences && k.transcription != transcription :: sentences[k];
      var params := kept;
      for i := 0 to |sents|
        invariant forall j :: 0 <= j < i ==> RowChecks(RowOf(sents[j]))
        invariant forall s :: SentenceKey(transcription, s) in params <==> 0 <= s < i
        invariant forall s :: 0 <= s < i ==> params[SentenceKey(transcription, s)] == RowOf(sents[s])
        invariant forall k: SentenceKey :: k.transcription != transcription ==>
          (k in params <==> k in sentences) && (k in params ==> params[k] == sentences[k])
      {
        if !RowChecks(RowOf(sents[i])) {
          return false;
        }
        params := params[SentenceKey(transcription, i) := RowOf(sents[i])];
      }
      sentences := params;
      rows := set r | r in rows && r.transcription != transcription;
      batches := map id | id in batches && batches[id].key.transcription != transcription :: batches[id];
      counts := counts[transcription := |sents|];
      return true;
    }
  }
}
