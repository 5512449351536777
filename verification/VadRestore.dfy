/**
 * Mapping word times, which are relative to a stitched buffer, back to the recording.
 * Times are 32-bit unsigned milliseconds and wrap around as in the service.
 */
module VadRestore {
  import opened Wrappers
  import opened AudioPieces

  const WORD_LIMIT := 0x1_0000_0000

  newtype uint32 = x: int | 0 <= x < 0x1_0000_0000

  datatype Word = Word(text: string, startMs: uint32, endMs: uint32, confidence: uint32, speaker: uint32)

  datatype Fix = Good | FixedStart | FixedEnd

  datatype Placed = Placed(word: Word, fix: Fix)

  // Multiplication of a 32-bit millisecond value, then conversion to a frame index.
  function ToFrames(ms: uint32): int {
    ((ms as int) * SAMPLE_RATE_KHZ) % WORD_LIMIT
  }

  // Conversion of a frame index to 32 bits, then division.
  function ToMillis(frames: int): uint32 {
    ((frames % WORD_LIMIT) / SAMPLE_RATE_KHZ) as uint32
  }

  function WordEnd(w: Word): int {
    if ToFrames(w.endMs) <= ToFrames(w.startMs) then ToFrames(w.startMs) + 1 else ToFrames(w.endMs)
  }

  // The cursor moves on while the next range has begun.
  function Advance(ranges: seq<SegmentRange>, pos: nat, wordStart: int): (next: nat)
    requires pos < |ranges|
    ensures pos <= next < |ranges|
    decreases |ranges| - pos
  {
    if pos + 1 < |ranges| && ranges[pos + 1].copyStart <= wordStart then Advance(ranges, pos + 1, wordStart) else pos
  }

  // Fits a word into one range: whole, by its start, by its end, or not at all.
  function Fit(r: SegmentRange, w: Word): Option<Placed> {
    var wordStart, wordEnd := ToFrames(w.startMs), WordEnd(w);
    var copyEnd := r.copyStart + r.Duration();
    var delta := r.realStart - r.copyStart;
    if delta < 0 then None
    else if r.copyStart <= wordStart && wordEnd <= copyEnd then
      Some(Placed(w.(startMs := ToMillis(wordStart + delta), endMs := ToMillis(wordEnd + delta)), Good))
    else if r.copyStart <= wordStart < copyEnd then
      Some(Placed(w.(startMs := ToMillis(wordStart + delta), endMs := ToMillis(copyEnd + delta)), FixedEnd))
    else if r.copyStart < wordEnd <= copyEnd then
      Some(Placed(w.(startMs := ToMillis(r.copyStart + delta), endMs := ToMillis(wordEnd + delta)), FixedStart))
    else None
  }

  function PlaceAll(ranges: seq<SegmentRange>, words: seq<Word>, pos: nat): seq<Placed>
    requires pos < |ranges|
  {
    if words == [] then []
    else
      var next := Advance(ranges, pos, ToFrames(words[0].startMs));
      var rest := PlaceAll(ranges, words[1..], next);
      match Fit(ranges[next], words[0])
      case None => rest
      case Some(placed) => [placed] + rest
  }

  // The repair of entry i, which looks at its already repaired left and not yet repaired right neighbour.
  function RepairAt(result: seq<Word>, fix: Fix, i: nat): (repaired: seq<Word>)
    requires i < |result|
    ensures |repaired| == |result|
  {
    match fix
    case Good => result
    case FixedStart =>
      if i > 0 && result[i - 1].endMs > result[i].startMs
      then result[i := result[i].(startMs := result[i - 1].endMs)] else result
    case FixedEnd =>
      if i + 1 < |result| && result[i + 1].startMs < result[i].endMs
      then result[i := result[i].(endMs := result[i + 1].startMs)] else result
  }

  function RepairFrom(result: seq<Word>, fixes: seq<Fix>, i: nat): (repaired: seq<Word>)
    requires |result| == |fixes| && i <= |result|
    ensures |repaired| == |result|
    decreases |result| - i
  {
    if i == |result| then result else RepairFrom(RepairAt(result, fixes[i], i), fixes, i + 1)
  }

  function WordsOf(placed: seq<Placed>): seq<Word> {
    seq(|placed|, i requires 0 <= i < |placed| => placed[i].word)
  }

  function FixesOf(placed: seq<Placed>): seq<Fix> {
    seq(|placed|, i requires 0 <= i < |placed| => placed[i].fix)
  }

  function Restored(ranges: seq<SegmentRange>, words: seq<Word>): seq<Word> {
    if ranges == [] then []
    else
      var placed := PlaceAll(ranges, words, 0);
      RepairFrom(WordsOf(placed), FixesOf(placed), 0)
  }

  // The second pass, which overwrites guessed times.
  method RepairInPlace(result: array<Word>, wordResults: seq<Fix>)
    requires result.Length == |wordResults|
    modifies result
    ensures result[..] == RepairFrom(old(result[..]), wordResults, 0)
  {
    ghost var placed := result[..];
    for i := 0 to result.Length
      invariant RepairFrom(placed, wordResults, 0) == RepairFrom(result[..], wordResults, i)
    {
      ghost var before := result[..];
      if wordResults[i] == FixedStart {
        if i > 0 && result[i - 1].endMs > result[i].startMs {
          result[i] := result[i].(startMs := result[i - 1].endMs);
        }
      } else if wordResults[i] == FixedEnd {
        if i + 1 < result.Length && result[i + 1].startMs < result[i].endMs {
          result[i] := result[i].(endMs := result[i + 1].startMs);
        }
      }
      assert result[..] == RepairAt(before, wordResults[i], i);
    }
  }

  method MoveCursor(ranges: seq<SegmentRange>, pos: nat, wordStart: int) returns (next: nat)
    requires pos < |ranges|
    ensures next == Advance(ranges, pos, wordStart)
  {
    next := pos;
    while next + 1 < |ranges| && ranges[next + 1].copyStart <= wordStart
      invariant next < |ranges| && Advance(ranges, pos, wordStart) == Advance(ranges, next, wordStart)
    {
      next := next + 1;
    }
  }

  // The first i words are placed and the cursor stands at pos.
  ghost predicate PlacedUpTo(ranges: seq<SegmentRange>, words: seq<Word>, placed: seq<Placed>, i: nat, pos: nat) {
    && pos < |ranges| && i <= |words|
    && PlaceAll(ranges, words, 0) == placed + PlaceAll(ranges, words[i..], pos)
  }

  lemma NothingPlaced(ranges: seq<SegmentRange>, words: seq<Word>)
    requires ranges != []
    ensures PlacedUpTo(ranges, words, [], 0, 0) && WordsOf([]) == [] && FixesOf([]) == []
  {
    assert words[0..] == words;
  }

  lemma PlaceNext(ranges: seq<SegmentRange>, words: seq<Word>, placed: seq<Placed>, i: nat, pos: nat)
    requires PlacedUpTo(ranges, words, placed, i, pos) && i < |words|
    ensures var next := Advance(ranges, pos, ToFrames(words[i].startMs));
      match Fit(ranges[next], words[i])
      case None => PlacedUpTo(ranges, words, placed, i + 1, next)
      case Some(p) =>
        PlacedUpTo(ranges, words, placed + [p], i + 1, next)
        && WordsOf(placed + [p]) == WordsOf(placed) + [p.word] && FixesOf(placed + [p]) == FixesOf(placed) + [p.fix]
  {
    hide Fit, ToFrames, Advance;
    assert words[i..][0] == words[i] && words[i..][1..] == words[i + 1..];
  }

  lemma AllPlaced(ranges: seq<SegmentRange>, words: seq<Word>, placed: seq<Placed>, pos: nat)
    requires PlacedUpTo(ranges, words, placed, |words|, pos)
    ensures placed == PlaceAll(ranges, words, 0)
  {
    assert words[|words|..] == [];
  }

  // The first pass, which moves a cursor over the ranges.
  method PlaceWords(ranges: seq<SegmentRange>, words: seq<Word>)
    returns (result: seq<Word>, wordResults: seq<Fix>)
    requires ranges != []
    ensures result == WordsOf(PlaceAll(ranges, words, 0)) && wordResults == FixesOf(PlaceAll(ranges, words, 0))
  {
    result, wordResults := [], [];
    var pos: nat := 0;
    ghost var placed: seq<Placed> := [];
    NothingPlaced(ranges, words);
    assert pos < |ranges|;
    hide PlacedUpTo, Fit, ToFrames, PlaceAll, Advance, WordsOf, FixesOf;
    for i := 0 to |words|
      invariant pos < |ranges| && PlacedUpTo(ranges, words, placed, i, pos)
      invariant result == WordsOf(placed) && wordResults == FixesOf(placed)
    {
      var word := words[i];
      PlaceNext(ranges, words, placed, i, pos);
      pos := MoveCursor(ranges, pos, ToFrames(word.startMs));
      match Fit(ranges[pos], word) {
        case None =>
        case Some(p) =>
          result := result + [p.word];
          wordResults := wordResults + [p.fix];
          placed := placed + [p];
      }
    }
    AllPlaced(ranges, words, placed, pos);
  }

  method RestoreWordTimestamps(ranges: seq<SegmentRange>, words: seq<Word>) returns (result: seq<Word>)
    ensures result == Restored(ranges, words)
  {
    if |ranges| == 0 {
      return [];
    }
    var placed, wordResults := PlaceWords(ranges, words);
    hide PlaceAll, RepairFrom, WordsOf, FixesOf;
    var slice := new Word[|placed|](i requires 0 <= i < |placed| => placed[i]);
    assert slice[..] == placed;
    RepairInPlace(slice, wordResults);
    result := slice[..];
  }

  // ---- What restoration means for the words of a stitched part ----

  // The low 32 bits of the product, and the millisecond in which the low 32 bits of a frame lie.
  lemma TimesWrapAround(ms: uint32, frames: int)
    ensures 0 <= ToFrames(ms) < WORD_LIMIT
    ensures exists q :: ToFrames(ms) + q * WORD_LIMIT == (ms as int) * SAMPLE_RATE_KHZ
    ensures exists q ::
      (ToMillis(frames) as int) * SAMPLE_RATE_KHZ + q * WORD_LIMIT <= frames
      < (ToMillis(frames) as int + 1) * SAMPLE_RATE_KHZ + q * WORD_LIMIT
  {
    var p, q := (ms as int) * SAMPLE_RATE_KHZ / WORD_LIMIT, frames / WORD_LIMIT;
    assert ToFrames(ms) + p * WORD_LIMIT == (ms as int) * SAMPLE_RATE_KHZ;
    assert (ToMillis(frames) as int) * SAMPLE_RATE_KHZ + q * WORD_LIMIT <= frames;
    assert frames < (ToMillis(frames) as int + 1) * SAMPLE_RATE_KHZ + q * WORD_LIMIT;
  }

  // Whether frames [from, end) of a stitched buffer, with one frame at least, begin or end in the range.
  ghost predicate Touches(r: SegmentRange, w: Word) {
    var copyEnd := r.copyStart + r.Duration();
    r.copyStart <= ToFrames(w.startMs) < copyEnd || r.copyStart < WordEnd(w) <= copyEnd
  }

  // Any word at all is placed exactly if it begins or ends in the range. What lies in the range is
  // shifted with it, a bound outside becomes the bound of the range, and that is recorded.
  lemma FitMeans(r: SegmentRange, w: Word)
    requires 0 <= r.copyStart <= r.realStart < r.realEnd
    ensures Fit(r, w).Some? <==> Touches(r, w)
    ensures Fit(r, w).Some? ==>
      var p, delta, copyEnd := Fit(r, w).value, r.realStart - r.copyStart, r.copyStart + r.Duration();
      var startsIn, endsIn := r.copyStart <= ToFrames(w.startMs), WordEnd(w) <= copyEnd;
      && p.word.text == w.text && p.word.confidence == w.confidence && p.word.speaker == w.speaker
      && p.word.startMs == ToMillis(if startsIn then ToFrames(w.startMs) + delta else r.realStart)
      && p.word.endMs == ToMillis(if endsIn then WordEnd(w) + delta else r.realEnd)
      && (p.fix == Good <==> startsIn && endsIn) && (p.fix == FixedStart <==> !startsIn)
  {
  }

  // What the repair pass makes of any words: a guessed start moves up to the repaired end before it, a
  // guessed end back to the unrepaired start after it, and nothing else changes.
  ghost predicate IsRepaired(result: seq<Word>, fixes: seq<Fix>, repaired: seq<Word>, j: nat)
    requires |result| == |fixes| == |repaired| && j < |result|
  {
    && repaired[j].text == result[j].text && repaired[j].confidence == result[j].confidence
    && repaired[j].speaker == result[j].speaker
    && repaired[j].startMs == (if fixes[j] == FixedStart && j > 0 && result[j].startMs < repaired[j - 1].endMs
                               then repaired[j - 1].endMs else result[j].startMs)
    && repaired[j].endMs == (if fixes[j] == FixedEnd && j + 1 < |result| && result[j + 1].startMs < result[j].endMs
                             then result[j + 1].startMs else result[j].endMs)
  }

  lemma {:induction false} RepairMeans(result: seq<Word>, fixes: seq<Fix>, i: nat)
    requires |result| == |fixes| && i <= |result|
    ensures var repaired := RepairFrom(result, fixes, i);
      && (forall j :: 0 <= j < i ==> repaired[j] == result[j])
      && (forall j :: i <= j < |result| ==> IsRepaired(result, fixes, repaired, j))
    decreases |result| - i
  {
    if i < |result| {
      var next := RepairAt(result, fixes[i], i);
      var repaired := RepairFrom(result, fixes, i);
      RepairMeans(next, fixes, i + 1);
      RepairAtMeans(result, fixes, i, repaired);
      hide RepairAt, RepairFrom;
      forall j | i < j < |result| ensures IsRepaired(result, fixes, repaired, j) {
        assert IsRepaired(next, fixes, repaired, j);
      }
    }
  }

  lemma RepairAtMeans(result: seq<Word>, fixes: seq<Fix>, i: nat, repaired: seq<Word>)
    requires |result| == |fixes| == |repaired| && i < |result|
    requires var next := RepairAt(result, fixes[i], i); forall j :: 0 <= j <= i ==> repaired[j] == next[j]
    ensures var next := RepairAt(result, fixes[i], i);
      (forall j :: 0 <= j < |result| && j != i ==> next[j] == result[j]) && IsRepaired(result, fixes, repaired, i)
  {
  }

  // The pieces of a part: inside the recording's 32-bit frame range, in order, on whole milliseconds.
  ghost predicate PartPieces(pieces: seq<Piece>) {
    && pieces != [] && Ascending(pieces, 0) && WholeMillis(pieces)
    && forall k :: 0 <= k < |pieces| ==> pieces[k].realEnd < WORD_LIMIT
  }

  // Words in order of start, with times small enough that the multiplication does not wrap.
  ghost predicate PlausibleWords(words: seq<Word>) {
    && (forall i :: 0 <= i < |words| ==> SmallTime(words[i].startMs) && SmallTime(words[i].endMs))
    && SortedByStart(words)
  }

  ghost predicate SmallTime(ms: uint32) {
    (ms as int) * SAMPLE_RATE_KHZ < WORD_LIMIT
  }

  ghost predicate SortedByStart(words: seq<Word>) {
    forall i, j :: 0 <= i < j < |words| ==> words[i].startMs <= words[j].startMs
  }

  ghost function Start(w: Word): int { (w.startMs as int) * SAMPLE_RATE_KHZ }

  // The words that start before the stitched end; the others are dropped.
  ghost function StartingInside(words: seq<Word>, frames: int): seq<Word> {
    if words == [] then []
    else (if Start(words[0]) < frames then [words[0]] else []) + StartingInside(words[1..], frames)
  }

  // Words with sorted starts keep exactly a prefix.
  lemma {:induction false} StartingInsideIsPrefix(words: seq<Word>, frames: int)
    requires SortedByStart(words)
    ensures StartingInside(words, frames) <= words
    ensures var n := |StartingInside(words, frames)|;
      forall i :: 0 <= i < |words| ==> (i < n <==> Start(words[i]) < frames)
  {
    if words != [] {
      StartingInsideIsPrefix(words[1..], frames);
      assert words == [words[0]] + words[1..];
    }
  }

  // Before the repair pass: w restored through range r.
  ghost predicate Lifted(r: SegmentRange, w: Word, p: Placed) {
    && p.word.text == w.text && p.word.confidence == w.confidence && p.word.speaker == w.speaker
    && Start(p.word) == Start(w) + r.realStart - r.copyStart
    && r.realStart <= Start(p.word) < r.realEnd
    && p.word.startMs <= p.word.endMs && (p.word.endMs as int) * SAMPLE_RATE_KHZ <= r.realEnd
    && (if WordEnd(w) <= r.copyStart + r.Duration()
        then p.fix == Good && p.word.endMs - p.word.startMs == (if w.endMs <= w.startMs then 0 else w.endMs - w.startMs)
        else p.fix == FixedEnd && p.word.endMs == ToMillis(r.realEnd))
  }

  // What a joined range is known to satisfy.
  ghost predicate SoundRange(r: SegmentRange) {
    && 0 <= r.copyStart <= r.realStart < r.realEnd < WORD_LIMIT
    && r.copyStart % SAMPLE_RATE_KHZ == 0 && r.realStart % SAMPLE_RATE_KHZ == 0
  }

  lemma FitLiftsRange(r: SegmentRange, w: Word)
    requires SoundRange(r) && Contains(r, Start(w)) && SmallTime(w.startMs) && SmallTime(w.endMs)
    ensures Fit(r, w).Some? && Lifted(r, w, Fit(r, w).value)
  {
    assert ToFrames(w.startMs) == Start(w) && ToFrames(w.endMs) == (w.endMs as int) * SAMPLE_RATE_KHZ;
    var delta := r.realStart - r.copyStart;
    MillisOfShift(w.startMs as int, delta);
    MillisOfShift(w.endMs as int, delta);
    MillisFloor(Start(w) + 1 + delta);
    MillisFloor(r.realEnd);
    MillisFloor(WordEnd(w) + delta);
  }

  lemma MillisOfShift(ms: int, delta: int)
    requires delta % SAMPLE_RATE_KHZ == 0
    ensures (ms * SAMPLE_RATE_KHZ + delta) % SAMPLE_RATE_KHZ == 0
    ensures 0 <= ms * SAMPLE_RATE_KHZ + delta < WORD_LIMIT ==>
      (ToMillis(ms * SAMPLE_RATE_KHZ + delta) as int) * SAMPLE_RATE_KHZ == ms * SAMPLE_RATE_KHZ + delta
  {
  }

  lemma MillisFloor(frames: int)
    ensures 0 <= frames < WORD_LIMIT ==>
      var ms := ToMillis(frames) as int;
      ms * SAMPLE_RATE_KHZ <= frames < ms * SAMPLE_RATE_KHZ + SAMPLE_RATE_KHZ
  {
  }

  lemma {:induction false} FramesPositive(pieces: seq<Piece>)
    requires forall k :: 0 <= k < |pieces| ==> pieces[k].Duration() > 0
    ensures Frames(pieces) >= 0
  {
    if pieces != [] {
      FramesPositive(pieces[1..]);
    }
  }

  lemma {:induction false} JoinedRangeIsSound(pieces: seq<Piece>, k: nat)
    requires PartPieces(pieces) && k < |pieces|
    ensures SoundRange(RangesOf(pieces, 0)[k])
  {
    CopyBehindReal(pieces, 0, 0, k);
    CopyIsWholeMillis(pieces, 0, k);
    RangesTile(pieces, 0, k);
    FramesPositive(pieces[..k]);
  }

  lemma {:induction false} FitLifts(pieces: seq<Piece>, k: nat, w: Word)
    requires PartPieces(pieces) && k < |pieces|
    requires SmallTime(w.startMs) && SmallTime(w.endMs)
    requires Contains(RangesOf(pieces, 0)[k], Start(w))
    ensures var r := RangesOf(pieces, 0)[k];
      Fit(r, w).Some? && Lifted(r, w, Fit(r, w).value)
  {
    JoinedRangeIsSound(pieces, k);
    FitLiftsRange(RangesOf(pieces, 0)[k], w);
  }

  // The range a stitched frame belongs to: the last one that has begun.
  ghost function Home(pieces: seq<Piece>, f: int): (k: nat)
    requires pieces != []
    ensures k < |pieces|
  {
    Advance(RangesOf(pieces, 0), 0, f)
  }

  lemma {:induction false} AdvanceFinds(pieces: seq<Piece>, pos: nat, f: int)
    requires PartPieces(pieces) && pos < |pieces| && RangesOf(pieces, 0)[pos].copyStart <= f
    ensures var k := Advance(RangesOf(pieces, 0), pos, f);
      RangesOf(pieces, 0)[k].copyStart <= f
      && (f < Frames(pieces) <==> Contains(RangesOf(pieces, 0)[k], f))
    decreases |pieces| - pos
  {
    RangesTile(pieces, 0, pos);
    if pos + 1 < |pieces| {
      RangesTile(pieces, 0, pos + 1);
      CopyStartsBelowTotal(pieces, pos + 1);
      if RangesOf(pieces, 0)[pos + 1].copyStart <= f {
        AdvanceFinds(pieces, pos + 1, f);
      }
    }
  }

  lemma {:induction false} CopyStartsBelowTotal(pieces: seq<Piece>, k: nat)
    requires PartPieces(pieces) && k < |pieces|
    ensures 0 <= RangesOf(pieces, 0)[k].copyStart < Frames(pieces)
  {
    RangesTile(pieces, 0, k);
    RangesTile(pieces, 0, |pieces| - 1);
    JoinedRangeIsSound(pieces, k);
    if k < |pieces| - 1 {
      CopyStartsGrow(pieces, 0, k, |pieces| - 1);
    }
  }

  // The cursor finds the same range whether it starts at the front or at an earlier word's range.
  lemma {:induction false} AdvanceIsHome(pieces: seq<Piece>, pos: nat, f: int)
    requires PartPieces(pieces) && pos < |pieces| && RangesOf(pieces, 0)[pos].copyStart <= f
    ensures Advance(RangesOf(pieces, 0), pos, f) == Home(pieces, f)
  {
    RangesTile(pieces, 0, pos);
    AdvanceStable(pieces, 0, pos, f);
  }

  lemma {:induction false} AdvanceStable(pieces: seq<Piece>, from: nat, pos: nat, f: int)
    requires PartPieces(pieces) && from <= pos < |pieces| && RangesOf(pieces, 0)[pos].copyStart <= f
    ensures Advance(RangesOf(pieces, 0), from, f) == Advance(RangesOf(pieces, 0), pos, f)
    decreases pos - from
  {
    if from < pos {
      if from + 1 < pos {
        CopyStartsGrow(pieces, 0, from + 1, pos);
      }
      AdvanceStable(pieces, from + 1, pos, f);
    }
  }

  lemma {:induction false} HomeContains(pieces: seq<Piece>, f: int)
    requires PartPieces(pieces) && 0 <= f < Frames(pieces)
    ensures Contains(RangesOf(pieces, 0)[Home(pieces, f)], f)
  {
    AdvanceFinds(pieces, 0, f);
  }

  ghost function HomeRange(pieces: seq<Piece>, w: Word): SegmentRange
    requires pieces != []
  {
    RangesOf(pieces, 0)[Home(pieces, Start(w))]
  }

  ghost predicate AllLifted(pieces: seq<Piece>, kept: seq<Word>, placed: seq<Placed>)
    requires pieces != []
  {
    && |placed| == |kept|
    && forall i :: 0 <= i < |kept| ==> Lifted(HomeRange(pieces, kept[i]), kept[i], placed[i])
  }

  lemma AllLiftedCons(pieces: seq<Piece>, w: Word, p: Placed, kept: seq<Word>, placed: seq<Placed>)
    requires pieces != [] && AllLifted(pieces, kept, placed) && Lifted(HomeRange(pieces, w), w, p)
    ensures AllLifted(pieces, [w] + kept, [p] + placed)
  {
  }

  lemma PlaceFirst(pieces: seq<Piece>, words: seq<Word>, pos: nat) returns (k: nat)
    requires PartPieces(pieces) && PlausibleWords(words) && words != [] && pos < |pieces|
    requires RangesOf(pieces, 0)[pos].copyStart <= Start(words[0])
    ensures k < |pieces| && RangesOf(pieces, 0)[k].copyStart <= Start(words[0])
    ensures var placed, rest := PlaceAll(RangesOf(pieces, 0), words, pos), PlaceAll(RangesOf(pieces, 0), words[1..], k);
      if Start(words[0]) < Frames(pieces)
      then placed != [] && Lifted(HomeRange(pieces, words[0]), words[0], placed[0]) && placed == [placed[0]] + rest
      else placed == rest
  {
    var w, f := words[0], Start(words[0]);
    k := Advance(RangesOf(pieces, 0), pos, f);
    assert ToFrames(w.startMs) == f;
    AdvanceFinds(pieces, pos, f);
    AdvanceIsHome(pieces, pos, f);
    if f < Frames(pieces) {
      FitLifts(pieces, k, w);
    } else {
      BeyondDoesNotFit(RangesOf(pieces, 0)[k], w);
    }
  }

  lemma {:induction false} PlaceAllLifts(pieces: seq<Piece>, words: seq<Word>, pos: nat)
    requires PartPieces(pieces) && PlausibleWords(words) && pos < |pieces|
    requires words != [] ==> RangesOf(pieces, 0)[pos].copyStart <= Start(words[0])
    ensures AllLifted(pieces, StartingInside(words, Frames(pieces)), PlaceAll(RangesOf(pieces, 0), words, pos))
  {
    if words != [] {
      var k := PlaceFirst(pieces, words, pos);
      PlaceAllLifts(pieces, words[1..], k);
      if Start(words[0]) < Frames(pieces) {
        var placed := PlaceAll(RangesOf(pieces, 0), words, pos);
        AllLiftedCons(pieces, words[0], placed[0], StartingInside(words[1..], Frames(pieces)),
          PlaceAll(RangesOf(pieces, 0), words[1..], k));
      }
    }
  }

  lemma BeyondDoesNotFit(r: SegmentRange, w: Word)
    requires SmallTime(w.startMs) && r.copyStart + r.Duration() <= Start(w)
    ensures Fit(r, w).None?
  {
  }

  lemma {:induction false} LiftedStartsSorted(pieces: seq<Piece>, v: Word, w: Word, p: Placed, q: Placed)
    requires PartPieces(pieces) && 0 <= Start(v) <= Start(w) < Frames(pieces)
    requires Lifted(HomeRange(pieces, v), v, p) && Lifted(HomeRange(pieces, w), w, q)
    ensures p.word.startMs <= q.word.startMs
  {
    var j, k := Home(pieces, Start(v)), Home(pieces, Start(w));
    HomeContains(pieces, Start(v));
    HomeContains(pieces, Start(w));
    if j > k {
      CopyStartsGrow(pieces, 0, k, j);
      RangesTile(pieces, 0, k);
    } else if j < k {
      RangesTile(pieces, 0, j);
      RangesTile(pieces, 0, k);
    }
  }

  // Without clipped starts the repair pass only moves clipped ends back to the next word.
  ghost function RepairedWord(result: seq<Word>, fixes: seq<Fix>, i: nat): Word
    requires |result| == |fixes| && i < |result|
  {
    if fixes[i] == FixedEnd && i + 1 < |result| && result[i + 1].startMs < result[i].endMs
    then result[i].(endMs := result[i + 1].startMs) else result[i]
  }

  lemma {:induction false} RepairMovesEndsOnly(result: seq<Word>, fixes: seq<Fix>, i: nat)
    requires |result| == |fixes| && i <= |result|
    requires forall j :: 0 <= j < |fixes| ==> fixes[j] != FixedStart
    ensures forall j :: 0 <= j < |result| ==>
      RepairFrom(result, fixes, i)[j] == if j < i then result[j] else RepairedWord(result, fixes, j)
    decreases |result| - i
  {
    if i < |result| {
      var next := RepairAt(result, fixes[i], i);
      assert next[i] == RepairedWord(result, fixes, i);
      RepairMovesEndsOnly(next, fixes, i + 1);
      forall j | i < j < |result| ensures RepairedWord(next, fixes, j) == RepairedWord(result, fixes, j) {
      }
    }
  }

  // What a caller may rely on for word w restored through range r, followed by the words `later`.
  ghost predicate Faithful(r: SegmentRange, w: Word, restored: Word, later: seq<Word>) {
    && restored.text == w.text && restored.confidence == w.confidence && restored.speaker == w.speaker
    && Start(restored) == Start(w) + r.realStart - r.copyStart
    && r.realStart <= Start(restored) < r.realEnd
    && restored.startMs <= restored.endMs && (restored.endMs as int) * SAMPLE_RATE_KHZ <= r.realEnd
    && (if WordEnd(w) <= r.copyStart + r.Duration() then
          restored.endMs - restored.startMs == (if w.endMs <= w.startMs then 0 else w.endMs - w.startMs)
        else
          restored.endMs ==
            if later != [] && later[0].startMs < ToMillis(r.realEnd) then later[0].startMs else ToMillis(r.realEnd))
  }

  lemma RepairedIsFaithful(r: SegmentRange, w: Word, result: seq<Word>, fixes: seq<Fix>, i: nat, later: seq<Word>)
    requires |result| == |fixes| && i < |result|
    requires Lifted(r, w, Placed(result[i], fixes[i]))
    requires i + 1 < |result| ==> later != [] && later[0].startMs == result[i + 1].startMs >= result[i].startMs
    requires i + 1 == |result| ==> later == []
    ensures Faithful(r, w, RepairedWord(result, fixes, i), later)
  {
  }

  lemma {:induction false} PlacedSorted(pieces: seq<Piece>, words: seq<Word>, placed: seq<Placed>)
    requires PartPieces(pieces) && PlausibleWords(words)
    requires AllLifted(pieces, StartingInside(words, Frames(pieces)), placed)
    ensures SortedByStart(WordsOf(placed))
    ensures forall i :: 0 <= i < |placed| ==> placed[i].fix != FixedStart
  {
    var kept := StartingInside(words, Frames(pieces));
    StartingInsideIsPrefix(words, Frames(pieces));
    forall i, j | 0 <= i < j < |placed| ensures placed[i].word.startMs <= placed[j].word.startMs {
      assert kept[i] == words[i] && kept[j] == words[j];
      LiftedStartsSorted(pieces, kept[i], kept[j], placed[i], placed[j]);
    }
    forall i | 0 <= i < |placed| ensures placed[i].fix != FixedStart {
      assert Lifted(HomeRange(pieces, kept[i]), kept[i], placed[i]);
    }
  }

  lemma RepairKeepsStarts(ws: seq<Word>, fixes: seq<Fix>, restored: seq<Word>)
    requires |ws| == |fixes| == |restored|
    requires forall i :: 0 <= i < |ws| ==> restored[i] == RepairedWord(ws, fixes, i)
    ensures forall i :: 0 <= i < |ws| ==> restored[i].startMs == ws[i].startMs
  {
  }

  // Exactly the words starting inside the stitched part survive; each one is restored
  // through the range it starts in, and the restored words are again in order of start.
  lemma {:induction false} RestoreIsFaithful(pieces: seq<Piece>, words: seq<Word>)
    requires PartPieces(pieces) && PlausibleWords(words)
    ensures var restored := Restored(RangesOf(pieces, 0), words);
      var kept := StartingInside(words, Frames(pieces));
      |restored| == |kept| && SortedByStart(restored)
      && forall i :: 0 <= i < |kept| ==>
        Faithful(HomeRange(pieces, kept[i]), kept[i], restored[i], restored[i + 1..])
  {
    var placed := PlaceAll(RangesOf(pieces, 0), words, 0);
    var kept := StartingInside(words, Frames(pieces));
    assert RangesOf(pieces, 0)[0].copyStart == 0;
    hide RangesOf, PlaceAll, StartingInside, Frames, RepairFrom, Faithful, Lifted, HomeRange;
    PlaceAllLifts(pieces, words, 0);
    PlacedSorted(pieces, words, placed);
    var ws, fixes := WordsOf(placed), FixesOf(placed);
    RepairMovesEndsOnly(ws, fixes, 0);
    var restored := RepairFrom(ws, fixes, 0);
    RepairKeepsStarts(ws, fixes, restored);
    forall i | 0 <= i < |kept|
      ensures Faithful(HomeRange(pieces, kept[i]), kept[i], restored[i], restored[i + 1..])
    {
      assert placed[i] == Placed(ws[i], fixes[i]);
      RepairedIsFaithful(HomeRange(pieces, kept[i]), kept[i], ws, fixes, i, restored[i + 1..]);
    }
  }
}
