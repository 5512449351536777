/**
 * Padding of detected speech: which stretch of the recording is taken for each
 * detected segment. Segment times are whole milliseconds.
 */
module SpeechPadding {
  import opened AudioPieces

  datatype Segment = Segment(startMs: int, endMs: int)

  // Detected segments come sorted and do not overlap; rounding may leave a segment empty.
  ghost predicate SortedSegments(segments: seq<Segment>) {
    && (forall i :: 0 <= i < |segments| ==> segments[i].startMs <= segments[i].endMs)
    && (forall i, j :: 0 <= i < j < |segments| ==> segments[i].endMs <= segments[j].startMs)
  }

  // Division that truncates toward zero.
  function TruncDiv(a: int, b: int): int
    requires b > 0
  {
    if a >= 0 then a / b else -((-a) / b)
  }

  function CeilDiv(a: nat, b: int): int
    requires b > 0
  {
    (a + b - 1) / b
  }

  function Min(a: int, b: int): int { if a < b then a else b }

  predicate InRange(segment: Segment, totalFrames: nat) {
    && 0 <= segment.startMs * SAMPLE_RATE_KHZ < totalFrames
    && segment.startMs * SAMPLE_RATE_KHZ < segment.endMs * SAMPLE_RATE_KHZ
  }

  function TakeBefore(prevGap: int, padMillis: int, first: bool): int {
    if prevGap <= padMillis * 2 then
      if first then Min(prevGap, padMillis) else prevGap - TruncDiv(prevGap, 2)
    else padMillis
  }

  function TakeAfter(nextGap: int, padMillis: int, last: bool): int {
    if nextGap <= padMillis * 2 then
      if last then Min(nextGap, padMillis) else TruncDiv(nextGap, 2)
    else padMillis
  }

  // The padded stretch taken for segment i when the last accepted segment ended at prevEndMillis.
  function PaddedPiece(segments: seq<Segment>, i: nat, prevEndMillis: int, totalFrames: nat, padMillis: int): Piece
    requires i < |segments|
  {
    var s := segments[i];
    var nextMillis := if i + 1 < |segments| then segments[i + 1].startMs else CeilDiv(totalFrames, SAMPLE_RATE_KHZ);
    var paddedStart := s.startMs - TakeBefore(s.startMs - prevEndMillis, padMillis, i == 0);
    var paddedEnd := s.endMs + TakeAfter(nextMillis - s.endMs, padMillis, i + 1 == |segments|);
    Piece(
      s.startMs * SAMPLE_RATE_KHZ,
      s.endMs * SAMPLE_RATE_KHZ,
      paddedStart * SAMPLE_RATE_KHZ,
      Min(totalFrames, paddedEnd * SAMPLE_RATE_KHZ))
  }

  // The pieces taken from segment i on.
  function Pieces(segments: seq<Segment>, i: nat, prevEndMillis: int, totalFrames: nat, padMillis: int): seq<Piece>
    requires i <= |segments|
    decreases |segments| - i
  {
    if i == |segments| then []
    else if !InRange(segments[i], totalFrames) then
      Pieces(segments, i + 1, prevEndMillis, totalFrames, padMillis)
    else
      [PaddedPiece(segments, i, prevEndMillis, totalFrames, padMillis)]
      + Pieces(segments, i + 1, segments[i].endMs, totalFrames, padMillis)
  }

  function AllPieces(segments: seq<Segment>, totalFrames: nat, padMillis: int): seq<Piece> {
    Pieces(segments, 0, 0, totalFrames, padMillis)
  }

  // The recording up to `taken` (milliseconds) is used up; segment i still has its half of the gap.
  ghost predicate RoomLeft(segments: seq<Segment>, i: nat, prevEndMillis: int, taken: int, padMillis: int)
    requires i <= |segments|
  {
    && 0 <= prevEndMillis && 0 <= taken
    && (i == 0 ==> prevEndMillis == 0 && taken == 0)
    && (i < |segments| && segments[i].startMs < 0 ==> prevEndMillis == 0 && taken == 0)
    && (i < |segments| && segments[i].startMs >= 0 ==>
      prevEndMillis <= segments[i].startMs
      && taken <= prevEndMillis + Min(padMillis, (segments[i].startMs - prevEndMillis) / 2))
  }

  // Each piece holds its clipped speech and at most the padding on either side.
  ghost predicate WellPadded(p: Piece, totalFrames: nat, padMillis: int) {
    && p.realStart <= p.speechStart < p.realEnd
    && Min(totalFrames, p.speechEnd) <= p.realEnd <= totalFrames
    && p.speechStart - p.realStart <= padMillis * SAMPLE_RATE_KHZ
    && p.realEnd - p.speechEnd <= padMillis * SAMPLE_RATE_KHZ
    && p.speechStart % SAMPLE_RATE_KHZ == 0 && p.realStart % SAMPLE_RATE_KHZ == 0
    && (p.realEnd % SAMPLE_RATE_KHZ == 0 || p.realEnd == totalFrames)
  }

  lemma SkipKeepsRoom(segments: seq<Segment>, i: nat, prevEndMillis: int, taken: int, padMillis: int)
    requires SortedSegments(segments) && padMillis >= 0 && i < |segments|
    requires RoomLeft(segments, i, prevEndMillis, taken, padMillis)
    ensures RoomLeft(segments, i + 1, prevEndMillis, taken, padMillis)
  {
  }

  lemma TakePiece(segments: seq<Segment>, i: nat, prevEndMillis: int, taken: int, totalFrames: nat, padMillis: int)
    returns (newTaken: int)
    requires SortedSegments(segments) && padMillis >= 0 && i < |segments|
    requires InRange(segments[i], totalFrames)
    requires RoomLeft(segments, i, prevEndMillis, taken, padMillis)
    ensures RoomLeft(segments, i + 1, segments[i].endMs, newTaken, padMillis)
    ensures var p := PaddedPiece(segments, i, prevEndMillis, totalFrames, padMillis);
      WellPadded(p, totalFrames, padMillis)
      && taken * SAMPLE_RATE_KHZ <= p.realStart
      && p.realEnd == Min(totalFrames, newTaken * SAMPLE_RATE_KHZ)
  {
    var s := segments[i];
    var totalMillis := CeilDiv(totalFrames, SAMPLE_RATE_KHZ);
    CeilOfFrames(totalFrames);
    hide CeilDiv;
    var paddedStart := TakeMillisBefore(segments, i, prevEndMillis, taken, padMillis);
    newTaken := TakeMillisAfter(segments, i, totalMillis, padMillis);
    hide RoomLeft, TakeBefore, TakeAfter;
    PaddedInFrames(s, paddedStart, newTaken, totalMillis, totalFrames, padMillis);
  }

  lemma CeilOfFrames(totalFrames: nat)
    ensures var millis := CeilDiv(totalFrames, SAMPLE_RATE_KHZ);
      totalFrames <= millis * SAMPLE_RATE_KHZ < totalFrames + SAMPLE_RATE_KHZ
  {
  }

  lemma TakeMillisBefore(segments: seq<Segment>, i: nat, prevEndMillis: int, taken: int, padMillis: int)
    returns (paddedStart: int)
    requires SortedSegments(segments) && padMillis >= 0 && i < |segments| && segments[i].startMs >= 0
    requires RoomLeft(segments, i, prevEndMillis, taken, padMillis)
    ensures paddedStart == segments[i].startMs - TakeBefore(segments[i].startMs - prevEndMillis, padMillis, i == 0)
    ensures 0 <= taken <= paddedStart <= segments[i].startMs <= paddedStart + padMillis
  {
    paddedStart := segments[i].startMs - TakeBefore(segments[i].startMs - prevEndMillis, padMillis, i == 0);
  }

  lemma TakeMillisAfter(segments: seq<Segment>, i: nat, totalMillis: int, padMillis: int) returns (newTaken: int)
    requires SortedSegments(segments) && padMillis >= 0 && i < |segments|
    requires 0 <= segments[i].startMs < totalMillis && segments[i].startMs < segments[i].endMs
    ensures var nextMillis := if i + 1 < |segments| then segments[i + 1].startMs else totalMillis;
      newTaken == segments[i].endMs + TakeAfter(nextMillis - segments[i].endMs, padMillis, i + 1 == |segments|)
    ensures Min(segments[i].endMs, totalMillis) <= newTaken <= segments[i].endMs + padMillis
    ensures RoomLeft(segments, i + 1, segments[i].endMs, newTaken, padMillis)
  {
    var nextMillis := if i + 1 < |segments| then segments[i + 1].startMs else totalMillis;
    newTaken := segments[i].endMs + TakeAfter(nextMillis - segments[i].endMs, padMillis, i + 1 == |segments|);
  }

  // The same in frames, where the end is clipped to the recording.
  lemma PaddedInFrames(s: Segment, paddedStart: int, paddedEnd: int, totalMillis: int, totalFrames: nat, padMillis: int)
    requires InRange(s, totalFrames) && totalFrames <= totalMillis * SAMPLE_RATE_KHZ < totalFrames + SAMPLE_RATE_KHZ
    requires 0 <= paddedStart <= s.startMs <= paddedStart + padMillis
    requires Min(s.endMs, totalMillis) <= paddedEnd <= s.endMs + padMillis
    ensures WellPadded(
      Piece(s.startMs * SAMPLE_RATE_KHZ, s.endMs * SAMPLE_RATE_KHZ, paddedStart * SAMPLE_RATE_KHZ,
            Min(totalFrames, paddedEnd * SAMPLE_RATE_KHZ)), totalFrames, padMillis)
  {
  }

  // Pieces taken from segment i on are well padded, start after what is already taken and ascend.
  lemma {:induction false} PiecesFrom(
    segments: seq<Segment>, i: nat, prevEndMillis: int, taken: int, totalFrames: nat, padMillis: int)
    requires SortedSegments(segments) && padMillis >= 0 && i <= |segments|
    requires RoomLeft(segments, i, prevEndMillis, taken, padMillis)
    ensures var ps := Pieces(segments, i, prevEndMillis, totalFrames, padMillis);
      && (forall k :: 0 <= k < |ps| ==> WellPadded(ps[k], totalFrames, padMillis))
      && Ascending(ps, taken * SAMPLE_RATE_KHZ)
    decreases |segments| - i
  {
    if i == |segments| {
    } else if !InRange(segments[i], totalFrames) {
      SkipKeepsRoom(segments, i, prevEndMillis, taken, padMillis);
      PiecesFrom(segments, i + 1, prevEndMillis, taken, totalFrames, padMillis);
    } else {
      var newTaken := TakePiece(segments, i, prevEndMillis, taken, totalFrames, padMillis);
      PiecesFrom(segments, i + 1, segments[i].endMs, newTaken, totalFrames, padMillis);
      var p := PaddedPiece(segments, i, prevEndMillis, totalFrames, padMillis);
      var rest := Pieces(segments, i + 1, segments[i].endMs, totalFrames, padMillis);
      AscendingCons(p, rest, taken * SAMPLE_RATE_KHZ, newTaken * SAMPLE_RATE_KHZ);
    }
  }

  lemma AscendingCons(p: Piece, rest: seq<Piece>, lo: int, mid: int)
    requires lo <= p.realStart < p.realEnd <= mid && Ascending(rest, mid)
    ensures Ascending([p] + rest, lo)
  {
  }

  // Only the last piece can reach the end of the recording, so all other bounds are whole milliseconds.
  lemma PaddedRanges(segments: seq<Segment>, totalFrames: nat, padMillis: int)
    requires SortedSegments(segments) && padMillis >= 0
    ensures var ps := AllPieces(segments, totalFrames, padMillis);
      && (forall k :: 0 <= k < |ps| ==> WellPadded(ps[k], totalFrames, padMillis))
      && Ascending(ps, 0) && WholeMillis(ps)
  {
    PiecesFrom(segments, 0, 0, 0, totalFrames, padMillis);
    var ps := AllPieces(segments, totalFrames, padMillis);
    forall k | 0 <= k < |ps| - 1 ensures ps[k].realEnd % SAMPLE_RATE_KHZ == 0 {
      assert ps[k].realEnd <= ps[k + 1].realStart < ps[k + 1].realEnd <= totalFrames;
    }
  }

  function Kept(segments: seq<Segment>, totalFrames: nat): seq<Segment> {
    if segments == [] then []
    else (if InRange(segments[0], totalFrames) then [segments[0]] else []) + Kept(segments[1..], totalFrames)
  }

  // Nothing that is in range is lost, nothing is taken twice, and the order is kept.
  lemma {:induction false} PiecesOfKept(
    segments: seq<Segment>, i: nat, prevEndMillis: int, totalFrames: nat, padMillis: int)
    requires i <= |segments|
    ensures var ps := Pieces(segments, i, prevEndMillis, totalFrames, padMillis);
      var kept := Kept(segments[i..], totalFrames);
      |ps| == |kept|
      && forall k :: 0 <= k < |ps| ==>
        ps[k].speechStart == kept[k].startMs * SAMPLE_RATE_KHZ && ps[k].speechEnd == kept[k].endMs * SAMPLE_RATE_KHZ
    decreases |segments| - i
  {
    if i < |segments| {
      assert segments[i..][1..] == segments[i + 1..];
      if !InRange(segments[i], totalFrames) {
        PiecesOfKept(segments, i + 1, prevEndMillis, totalFrames, padMillis);
      } else {
        PiecesOfKept(segments, i + 1, segments[i].endMs, totalFrames, padMillis);
      }
    }
  }

  // ---- How much is taken, from positions alone ----

  // Where the last segment in range before segment i ends.
  ghost function PrevEnd(segments: seq<Segment>, i: nat, totalFrames: nat): int
    requires i <= |segments|
  {
    if i == 0 then 0
    else if InRange(segments[i - 1], totalFrames) then segments[i - 1].endMs
    else PrevEnd(segments, i - 1, totalFrames)
  }

  // The index of the piece that segment i gives.
  ghost function PieceIndex(segments: seq<Segment>, i: nat, totalFrames: nat): nat
    requires i <= |segments|
  {
    if i == 0 then 0
    else PieceIndex(segments, i - 1, totalFrames) + (if InRange(segments[i - 1], totalFrames) then 1 else 0)
  }

  lemma {:induction false} PieceAt(segments: seq<Segment>, i: nat, totalFrames: nat, padMillis: int)
    requires i <= |segments|
    ensures var ps, k := AllPieces(segments, totalFrames, padMillis), PieceIndex(segments, i, totalFrames);
      k <= |ps| && ps[k..] == Pieces(segments, i, PrevEnd(segments, i, totalFrames), totalFrames, padMillis)
  {
    if i > 0 {
      PieceAt(segments, i - 1, totalFrames, padMillis);
      var ps, k := AllPieces(segments, totalFrames, padMillis), PieceIndex(segments, i - 1, totalFrames);
      if InRange(segments[i - 1], totalFrames) {
        assert ps[k..][1..] == ps[k + 1..];
      }
    }
  }

  // Where the padded stretch of segment i begins: the padding ahead of it, but not before the recording
  // and not more than the larger half of the gap to the segment before.
  ghost function PaddedFrom(segments: seq<Segment>, i: nat, totalFrames: nat, padMillis: int): int
    requires i < |segments|
  {
    var start, prevEnd := segments[i].startMs, PrevEnd(segments, i, totalFrames);
    if i == 0 then (if start >= padMillis then start - padMillis else 0)
    else if start - prevEnd > 2 * padMillis then start - padMillis
    else prevEnd + (start - prevEnd) / 2
  }

  // Where it ends, before clipping to the recording.
  ghost function PaddedUntil(segments: seq<Segment>, i: nat, padMillis: int): int
    requires i < |segments|
  {
    var end := segments[i].endMs;
    if i + 1 < |segments| && segments[i + 1].startMs - end <= 2 * padMillis
    then end + (segments[i + 1].startMs - end) / 2
    else end + padMillis
  }

  lemma PrevEndIsBefore(segments: seq<Segment>, i: nat, totalFrames: nat)
    requires SortedSegments(segments) && i < |segments| && segments[i].startMs >= 0
    ensures 0 <= PrevEnd(segments, i, totalFrames) <= segments[i].startMs
  {
    PrevEndBelow(segments, i, i, totalFrames);
  }

  lemma {:induction false} PrevEndBelow(segments: seq<Segment>, j: nat, i: nat, totalFrames: nat)
    requires SortedSegments(segments) && j <= i < |segments| && segments[i].startMs >= 0
    ensures 0 <= PrevEnd(segments, j, totalFrames) <= segments[i].startMs
  {
    if j > 0 {
      PrevEndBelow(segments, j - 1, i, totalFrames);
    }
  }

  // Every segment in range gives a piece with exactly these bounds.
  lemma PaddingIsExact(segments: seq<Segment>, i: nat, totalFrames: nat, padMillis: int)
    requires SortedSegments(segments) && padMillis >= 0 && i < |segments| && InRange(segments[i], totalFrames)
    ensures var ps, k := AllPieces(segments, totalFrames, padMillis), PieceIndex(segments, i, totalFrames);
      && k < |ps|
      && ps[k].speechStart == segments[i].startMs * SAMPLE_RATE_KHZ
      && ps[k].speechEnd == segments[i].endMs * SAMPLE_RATE_KHZ
      && ps[k].realStart == PaddedFrom(segments, i, totalFrames, padMillis) * SAMPLE_RATE_KHZ
      && ps[k].realEnd == (if PaddedUntil(segments, i, padMillis) * SAMPLE_RATE_KHZ < totalFrames
                           then PaddedUntil(segments, i, padMillis) * SAMPLE_RATE_KHZ else totalFrames)
  {
    PieceAt(segments, i, totalFrames, padMillis);
    var ps, k := AllPieces(segments, totalFrames, padMillis), PieceIndex(segments, i, totalFrames);
    assert ps[k] == ps[k..][0];
    PrevEndIsBefore(segments, i, totalFrames);
    CeilOfFrames(totalFrames);
    hide PrevEnd, PieceIndex, CeilDiv;
  }

  // Neighbours close to each other share the gap between them: the pieces meet, and the first one
  // takes the smaller half. Otherwise each takes the whole padding.
  lemma NeighboursShareGap(segments: seq<Segment>, i: nat, totalFrames: nat, padMillis: int)
    requires SortedSegments(segments) && padMillis >= 0 && i + 1 < |segments|
    requires InRange(segments[i], totalFrames) && InRange(segments[i + 1], totalFrames)
    ensures var ps, k := AllPieces(segments, totalFrames, padMillis), PieceIndex(segments, i, totalFrames);
      var gap := segments[i + 1].startMs - segments[i].endMs;
      && k + 1 < |ps|
      && (gap <= 2 * padMillis ==>
            && ps[k].realEnd == ps[k + 1].realStart
            && ps[k].realEnd - ps[k].speechEnd == gap / 2 * SAMPLE_RATE_KHZ
            && ps[k + 1].speechStart - ps[k + 1].realStart == (gap - gap / 2) * SAMPLE_RATE_KHZ)
      && (gap > 2 * padMillis ==>
            && ps[k].realEnd - ps[k].speechEnd == padMillis * SAMPLE_RATE_KHZ
            && ps[k + 1].speechStart - ps[k + 1].realStart == padMillis * SAMPLE_RATE_KHZ)
  {
    PaddingIsExact(segments, i, totalFrames, padMillis);
    PaddingIsExact(segments, i + 1, totalFrames, padMillis);
    hide AllPieces;
    assert PrevEnd(segments, i + 1, totalFrames) == segments[i].endMs;
    assert PieceIndex(segments, i + 1, totalFrames) == PieceIndex(segments, i, totalFrames) + 1;
  }
}
