/**
 * Sentence breakdowns from the language model: the blocking arrangement of a whole
 * answer, the streaming runner that stores sentences as they arrive, and their agreement.
 */
module Breakdowns {
  import opened Sets
  import opened Wrappers

  datatype Breakdown = Breakdown(sentence: string, translations: seq<string>, words: seq<string>)

  // One element of the answer; sentences are numbered from 1.
  datatype Item = Item(sentenceNum: int, breakdown: Breakdown)

  const NO_BREAKDOWN := Breakdown("", [], [])

  datatype Error = TooManyMissing | StreamFailed | ChargeFailed | TooFewInserted

  // Tokens of a request to the language model.
  datatype Usage = Usage(input: int, output: int)

  predicate InBatch(item: Item, n: nat) { 0 <= item.sentenceNum - 1 < n }

  // ---- The blocking arrangement ----

  datatype Arrangement = Arrangement(result: seq<Breakdown>, vacant: int)

  function Place(a: Arrangement, item: Item): (next: Arrangement)
    ensures |next.result| == |a.result|
  {
    var pos := item.sentenceNum - 1;
    if !InBatch(item, |a.result|) then a
    else if a.result[pos].sentence != "" then a
    else Arrangement(a.result[pos := item.breakdown], a.vacant - 1)
  }

  function Arranged(n: nat, items: seq<Item>): (a: Arrangement)
    ensures |a.result| == n
  {
    if items == [] then Arrangement(seq(n, _ => NO_BREAKDOWN), n)
    else Place(Arranged(n, items[..|items| - 1]), items[|items| - 1])
  }

  predicate Acceptable(n: nat, vacant: int) {
    !(vacant > 0 && vacant * 2 > n)
  }

  method ArrangeAndConvert(sentenceCount: nat, sents: seq<Item>) returns (result: Result<seq<Breakdown>, Error>)
    ensures var a := Arranged(sentenceCount, sents);
      result == if Acceptable(sentenceCount, a.vacant) then Ok(a.result) else Err(TooManyMissing)
  {
    var placed := new Breakdown[sentenceCount](_ => NO_BREAKDOWN);
    var vacant: int := sentenceCount;
    for i := 0 to |sents|
      invariant Arrangement(placed[..], vacant) == Arranged(sentenceCount, sents[..i])
    {
      assert sents[..i + 1][..i] == sents[..i];
      var pos := sents[i].sentenceNum - 1;
      if pos < 0 || pos >= sentenceCount {
        continue;
      }
      if placed[pos].sentence != "" {
        continue;
      } else {
        vacant := vacant - 1;
      }
      placed[pos] := sents[i].breakdown;
    }
    assert sents[..|sents|] == sents;
    if vacant > 0 {
      if vacant * 2 > sentenceCount {
        return Err(TooManyMissing);
      }
    }
    return Ok(placed[..]);
  }

  // ---- The streaming runner ----

  // Breakdown rows by sentence number; a second insert for the same sentence changes nothing.
  class BreakdownTable {
    var rows: map<int, Breakdown>

    method Insert(seqNo: int, b: Breakdown)
      modifies this
      ensures rows == InsertFirst(old(rows), seqNo, b)
    {
      if seqNo !in rows {
        rows := rows[seqNo := b];
      }
    }
  }

  // The tokens used up on a day.
  class TokenQuota {
    var used: Usage

    constructor ()
      ensures used == Usage(0, 0)
    {
      used := Usage(0, 0);
    }

    method Charge(usage: Usage)
      modifies this
      ensures used == Usage(old(used).input + usage.input, old(used).output + usage.output)
    {
      used := Usage(used.input + usage.input, used.output + usage.output);
    }
  }

  function InsertFirst(rows: map<int, Breakdown>, seqNo: int, b: Breakdown): map<int, Breakdown> {
    if seqNo in rows then rows else rows[seqNo := b]
  }

  datatype Progress = Progress(rows: map<int, Breakdown>, inserted: set<nat>)

  // What the callback does with one item; `broken` says that the insert query fails.
  function StoreItem(p: Progress, n: nat, startSeq: int, item: Item, broken: bool): Progress {
    if !InBatch(item, n) || item.breakdown.sentence == "" || broken then p
    else
      var pos := item.sentenceNum - 1;
      Progress(InsertFirst(p.rows, startSeq + pos, item.breakdown), p.inserted + {pos})
  }

  function Stored(rows: map<int, Breakdown>, n: nat, startSeq: int, items: seq<Item>, broken: nat -> bool): Progress {
    if items == [] then Progress(rows, {})
    else
      var last := |items| - 1;
      StoreItem(Stored(rows, n, startSeq, items[..last], broken), n, startSeq, items[last], broken(last))
  }

  function NeverBroken(k: nat): bool { false }

  // The items are decoded one by one and each is stored before the next is read; only at the
  // end of a complete stream is the answer arranged as a whole. Tokens are charged even for a
  // failed stream, and a failed charge fails the batch although its rows stay.
  method Process(
    table: BreakdownTable, quota: TokenQuota, n: nat, startSeq: int, items: seq<Item>,
    streamOk: bool, usage: Usage, chargeOk: bool, broken: nat -> bool)
    returns (result: Result<nat, Error>)
    modifies table, quota
    ensures table.rows == Stored(old(table.rows), n, startSeq, items, broken).rows
    ensures quota.used == if (usage.input > 0 || usage.output > 0) && chargeOk
                          then Usage(old(quota.used).input + usage.input, old(quota.used).output + usage.output)
                          else old(quota.used)
    ensures var inserted := Stored(old(table.rows), n, startSeq, items, broken).inserted;
      result == if !streamOk then Err(StreamFailed)
                else if !Acceptable(n, Arranged(n, items).vacant) then Err(TooManyMissing)
                else if (usage.input > 0 || usage.output > 0) && !chargeOk then Err(ChargeFailed)
                else if |inserted| * 2 >= n then Ok(|inserted|) else Err(TooFewInserted)
  {
    var insertedIndexes: set<nat> := {};
    var collected: seq<Item> := [];
    for k := 0 to |items|
      invariant quota.used == old(quota.used)
      invariant Progress(table.rows, insertedIndexes) == Stored(old(table.rows), n, startSeq, items[..k], broken)
      invariant collected == items[..k]
    {
      assert items[..k + 1][..k] == items[..k];
      collected := collected + [items[k]];
      var sentIndex := items[k].sentenceNum - 1;
      if sentIndex < 0 || sentIndex >= n {
        continue;
      }
      if items[k].breakdown.sentence == "" {
        continue;
      }
      if broken(k) {
        continue;
      }
      table.Insert(startSeq + sentIndex, items[k].breakdown);
      insertedIndexes := insertedIndexes + {sentIndex};
    }
    assert items[..|items|] == items;
    var failure: Option<Error> := None;
    if !streamOk {
      failure := Some(StreamFailed);
    } else {
      var arranged := ArrangeAndConvert(n, collected);
      if arranged.Err? {
        failure := Some(TooManyMissing);
      }
    }
    if usage.input > 0 || usage.output > 0 {
      if chargeOk {
        quota.Charge(usage);
      } else if failure.None? {
        failure := Some(ChargeFailed);
      }
    }
    if failure.Some? {
      return Err(failure.value);
    }
    var insertedCount := |insertedIndexes|;
    if insertedCount * 2 >= n {
      return Ok(insertedCount);
    }
    return Err(TooFewInserted);
  }

  // ---- Agreement ----

  // The positions that an arrangement fills with a real sentence.
  ghost function Filled(result: seq<Breakdown>): set<nat> {
    set p: nat | p < |result| && result[p].sentence != ""
  }

  // Rows left when the arrangement is written over a table without replacing anything.
  ghost predicate RowsAgree(
    before: map<int, Breakdown>, after: map<int, Breakdown>, startSeq: int, result: seq<Breakdown>)
  {
    forall s ::
      (s in before ==> s in after && after[s] == before[s])
      && (s !in before ==>
        (s in after <==> 0 <= s - startSeq < |result| && result[s - startSeq].sentence != "")
        && (s in after ==> after[s] == result[s - startSeq]))
  }

  // Streaming leaves exactly the non-empty positions of the blocking arrangement, with the same content.
  lemma {:induction false} StreamAgreesWithArrangement(
    rows: map<int, Breakdown>, n: nat, startSeq: int, items: seq<Item>)
    ensures var p := Stored(rows, n, startSeq, items, NeverBroken);
      RowsAgree(rows, p.rows, startSeq, Arranged(n, items).result)
      && p.inserted == Filled(Arranged(n, items).result)
  {
    if items != [] {
      var last := |items| - 1;
      StreamAgreesWithArrangement(rows, n, startSeq, items[..last]);
    }
  }

  // The items whose insert works.
  ghost function Working(items: seq<Item>, broken: nat -> bool): seq<Item> {
    if items == [] then []
    else
      var last := |items| - 1;
      Working(items[..last], broken) + (if broken(last) then [] else [items[last]])
  }

  // An item whose insert fails counts for nothing: rows and positions are those of the other items,
  // so a later item for the same position still gets its row.
  lemma {:induction false} FailedInsertsDropOut(
    rows: map<int, Breakdown>, n: nat, startSeq: int, items: seq<Item>, broken: nat -> bool)
    ensures var p := Stored(rows, n, startSeq, items, broken);
      RowsAgree(rows, p.rows, startSeq, Arranged(n, Working(items, broken)).result)
      && p.inserted == Filled(Arranged(n, Working(items, broken)).result)
  {
    StoredOfWorking(rows, n, startSeq, items, broken);
    StreamAgreesWithArrangement(rows, n, startSeq, Working(items, broken));
  }

  lemma {:induction false} StoredOfWorking(
    rows: map<int, Breakdown>, n: nat, startSeq: int, items: seq<Item>, broken: nat -> bool)
    ensures Stored(rows, n, startSeq, items, broken)
         == Stored(rows, n, startSeq, Working(items, broken), NeverBroken)
  {
    if items != [] {
      var last := |items| - 1;
      StoredOfWorking(rows, n, startSeq, items[..last], broken);
      var init := Working(items[..last], broken);
      assert (init + [items[last]])[..|init|] == init && (init + [items[last]])[|init|] == items[last];
      assert if broken(last) then Working(items, broken) == init else Working(items, broken) == init + [items[last]];
    }
  }

  // Starting without rows, the table is the arrangement.
  lemma {:induction false} StreamFromEmpty(n: nat, startSeq: int, items: seq<Item>, s: int)
    ensures var after := Stored(map[], n, startSeq, items, NeverBroken).rows;
      var result := Arranged(n, items).result;
      (s in after <==> 0 <= s - startSeq < n && result[s - startSeq].sentence != "")
      && (s in after ==> after[s] == result[s - startSeq])
  {
    StreamAgreesWithArrangement(map[], n, startSeq, items);
  }

  // The first sentence that is not empty wins its position.
  lemma {:induction false} FirstSentenceWins(n: nat, items: seq<Item>, pos: nat)
    requires pos < n
    ensures var b := Arranged(n, items).result[pos];
      if b.sentence == "" then
        forall k :: 0 <= k < |items| && items[k].sentenceNum - 1 == pos ==> items[k].breakdown.sentence == ""
      else
        exists k :: 0 <= k < |items| && items[k].sentenceNum - 1 == pos && items[k].breakdown == b
          && forall j :: 0 <= j < k && items[j].sentenceNum - 1 == pos ==> items[j].breakdown.sentence == ""
  {
    if items != [] {
      var last := |items| - 1;
      var init := items[..last];
      FirstSentenceWins(n, init, pos);
      var before := Arranged(n, init).result[pos];
      if before.sentence != "" {
        var k :| 0 <= k < |init| && init[k].sentenceNum - 1 == pos && init[k].breakdown == before
          && forall j :: 0 <= j < k && init[j].sentenceNum - 1 == pos ==> init[j].breakdown.sentence == "";
        assert items[k] == init[k];
      } else {
        assert forall k :: 0 <= k < last ==> items[k] == init[k];
        assert items[last].sentenceNum - 1 == pos ==> Arranged(n, items).result[pos] == items[last].breakdown;
      }
    }
  }

  predicate IsFor(item: Item, pos: int) { item.sentenceNum - 1 == pos }

  // Positions for which the answer has some sentence.
  ghost function Spoken(n: nat, items: seq<Item>): set<nat> {
    set p: nat | p < n && HasSentenceFor(items, p)
  }

  ghost predicate HasSentenceFor(items: seq<Item>, pos: int) {
    exists k :: 0 <= k < |items| && IsFor(items[k], pos) && items[k].breakdown.sentence != ""
  }

  // Items of the batch without a sentence that come before any sentence for their position.
  ghost function EarlyEmpties(n: nat, items: seq<Item>): set<nat> {
    set k: nat | k < |items| && IsEarlyEmpty(n, items, k)
  }

  ghost predicate IsEarlyEmpty(n: nat, items: seq<Item>, k: nat)
    requires k < |items|
  {
    && InBatch(items[k], n) && items[k].breakdown.sentence == ""
    && !HasSentenceFor(items[..k], items[k].sentenceNum - 1)
  }

  lemma SpokenIsFilled(n: nat, items: seq<Item>)
    ensures Filled(Arranged(n, items).result) == Spoken(n, items)
  {
    forall p: nat | p < n ensures Arranged(n, items).result[p].sentence != "" <==> HasSentenceFor(items, p) {
      FirstSentenceWins(n, items, p);
    }
  }

  lemma EarlyEmptiesSnoc(n: nat, items: seq<Item>)
    requires items != []
    ensures var last := |items| - 1;
      EarlyEmpties(n, items) == EarlyEmpties(n, items[..last]) + (if IsEarlyEmpty(n, items, last) then {last} else {})
      && last !in EarlyEmpties(n, items[..last])
  {
    var last := |items| - 1;
    forall k: nat | k < last ensures IsEarlyEmpty(n, items[..last], k) == IsEarlyEmpty(n, items, k) {
      assert items[..last][..k] == items[..k];
    }
  }

  // Early empty items lower the count of vacant positions although their position stays empty.
  lemma {:induction false} VacantCount(n: nat, items: seq<Item>)
    ensures Arranged(n, items).vacant == n - |Spoken(n, items)| - |EarlyEmpties(n, items)|
  {
    if items == [] {
      assert Spoken(n, items) == {} && EarlyEmpties(n, items) == {};
    } else {
      var last := |items| - 1;
      VacantCount(n, items[..last]);
      assert Arranged(n, items) == Place(Arranged(n, items[..last]), items[last]);
      OneMoreCounted(n, items);
    }
  }

  lemma OneMoreCounted(n: nat, items: seq<Item>)
    requires items != []
    ensures var last := |items| - 1;
      var before := Arranged(n, items[..last]);
      Place(before, items[last]).vacant - before.vacant
      == |Spoken(n, items[..last])| - |Spoken(n, items)| + |EarlyEmpties(n, items[..last])| - |EarlyEmpties(n, items)|
  {
    var last := |items| - 1;
    var before, item := Arranged(n, items[..last]), items[last];
    assert Arranged(n, items) == Place(before, item);
    SpokenIsFilled(n, items);
    SpokenIsFilled(n, items[..last]);
    EarlyEmptiesSnoc(n, items);
    assert InBatch(item, n) ==>
      (before.result[item.sentenceNum - 1].sentence != "" <==> item.sentenceNum - 1 in Spoken(n, items[..last]));
    hide Spoken, EarlyEmpties, Arranged;
    PlacedIsCounted(before, item);
  }

  lemma PlacedIsCounted(before: Arrangement, item: Item)
    ensures var n, after, pos := |before.result|, Place(before, item), item.sentenceNum - 1;
      if InBatch(item, n) && before.result[pos].sentence == "" then
        after.vacant == before.vacant - 1
        && |Filled(after.result)| == |Filled(before.result)| + (if item.breakdown.sentence == "" then 0 else 1)
      else
        after == before
  {
    var n, after, pos := |before.result|, Place(before, item), item.sentenceNum - 1;
    if InBatch(item, n) && before.result[pos].sentence == "" {
      assert Filled(after.result)
          == if item.breakdown.sentence == "" then Filled(before.result) else Filled(before.result) + {pos};
    }
  }

  // With working inserts and no rows to begin with.
  ghost predicate RunnerAccepts(n: nat, items: seq<Item>) {
    |Stored(map[], n, 0, items, NeverBroken).inserted| * 2 >= n
  }

  ghost predicate ArrangementAccepts(n: nat, items: seq<Item>) {
    Acceptable(n, Arranged(n, items).vacant)
  }

  // The runner's test and the arrangement's test are meant to be the same. The runner's implies the
  // arrangement's. Whether they agree can be read off the answer: they do unless its sentences cover
  // less than half of the batch and the early empty items make up for that.
  lemma {:induction false} AcceptanceAgreesExactly(n: nat, items: seq<Item>)
    ensures RunnerAccepts(n, items) ==> ArrangementAccepts(n, items)
    ensures (RunnerAccepts(n, items) <==> ArrangementAccepts(n, items)) <==>
      !(2 * |Spoken(n, items)| < n <= 2 * (|Spoken(n, items)| + |EarlyEmpties(n, items)|))
  {
    hide Arranged, Stored, Spoken, EarlyEmpties, Filled;
    StreamAgreesWithArrangement(map[], n, 0, items);
    SpokenIsFilled(n, items);
    VacantCount(n, items);
  }

  lemma {:induction false} NoEmptySentenceNoHits(n: nat, items: seq<Item>)
    requires forall k :: 0 <= k < |items| && InBatch(items[k], n) ==> items[k].breakdown.sentence != ""
    ensures EarlyEmpties(n, items) == {}
    ensures RunnerAccepts(n, items) <==> ArrangementAccepts(n, items)
  {
    AcceptanceAgreesExactly(n, items);
  }

  // Two empty sentences for the same position: the arrangement accepts an answer without any content.
  lemma EmptySentencesFoolTheArrangement()
    ensures var items := [Item(1, NO_BREAKDOWN), Item(1, NO_BREAKDOWN)];
      ArrangementAccepts(4, items) && !RunnerAccepts(4, items)
  {
    var items := [Item(1, NO_BREAKDOWN), Item(1, NO_BREAKDOWN)];
    assert items[..1] == [Item(1, NO_BREAKDOWN)] && items[..1][..0] == [];
    assert Arranged(4, items[..1]).vacant == 3;
    assert Arranged(4, items).vacant == 2;
    assert Stored(map[], 4, 0, items[..1], NeverBroken).inserted == {};
    assert Stored(map[], 4, 0, items, NeverBroken).inserted == {};
  }

  lemma {:induction false} InsertedOnlyFilled(
    rows: map<int, Breakdown>, n: nat, startSeq: int, items: seq<Item>, broken: nat -> bool)
    ensures Stored(rows, n, startSeq, items, broken).inserted <= Filled(Arranged(n, items).result)
    ensures forall p :: p in Stored(rows, n, startSeq, items, broken).inserted ==>
      startSeq + p in Stored(rows, n, startSeq, items, broken).rows
  {
    if items != [] {
      InsertedOnlyFilled(rows, n, startSeq, items[..|items| - 1], broken);
    }
  }

  ghost predicate HasRow(rows: map<int, Breakdown>, startSeq: int, pos: nat) {
    startSeq + pos in rows
  }

  // The sentences of a batch of n that have a stored breakdown.
  ghost function CoveredPositions(rows: map<int, Breakdown>, n: nat, startSeq: int): set<nat> {
    set pos: nat | pos < n && HasRow(rows, startSeq, pos)
  }

  // Whatever inserts fail, success means that at least half of the batch has a row, and the
  // arrangement's own test never turns a success of the runner into a failure.
  lemma {:induction false} SuccessMeansHalfStored(
    rows: map<int, Breakdown>, n: nat, startSeq: int, items: seq<Item>, broken: nat -> bool)
    requires |Stored(rows, n, startSeq, items, broken).inserted| * 2 >= n
    ensures ArrangementAccepts(n, items)
    ensures var p := Stored(rows, n, startSeq, items, broken);
      |CoveredPositions(p.rows, n, startSeq)| * 2 >= n
  {
    var p := Stored(rows, n, startSeq, items, broken);
    InsertedOnlyFilled(rows, n, startSeq, items, broken);
    SubsetSize(p.inserted, Filled(Arranged(n, items).result));
    SubsetSize(p.inserted, CoveredPositions(p.rows, n, startSeq));
    StreamAgreesWithArrangement(map[], n, 0, items);
    AcceptanceAgreesExactly(n, items);
  }
}
