/** What is sent to the recogniser: no detected speech is missing, and there are few parts. */
module SentAudio {
  import opened AudioPieces
  import opened SpeechPadding
  import opened Partition
  import opened VadSegment
  import opened ElevenTranscriber
  import LowMemVad

  // ---- Detected speech is sent ----

  // A stretch of detected speech in whole milliseconds, clipped to the recording, in frames.
  function FirstFrame(x: LowMemVad.Speech): int { LowMemVad.RoundMillis(x.start) * SAMPLE_RATE_KHZ }

  function EndFrame(x: LowMemVad.Speech, totalFrames: nat): int {
    Min(totalFrames, LowMemVad.RoundMillis(x.end) * SAMPLE_RATE_KHZ)
  }

  // Rounded to milliseconds the stretch is not empty and begins inside the recording.
  predicate IsKept(x: LowMemVad.Speech, totalFrames: nat) { FirstFrame(x) < EndFrame(x, totalFrames) }

  // That holds of every stretch of at least a millisecond.
  lemma OneMillisecondIsKept(x: LowMemVad.Speech, totalFrames: nat)
    requires 0.0 <= x.start && x.start + 0.001 <= x.end <= totalFrames as real / 16000.0
    ensures IsKept(x, totalFrames)
  {
    LowMemVad.RoundMillisIsNearest(x.start);
    LowMemVad.RoundMillisIsNearest(x.end);
  }

  // The frames of segment i of the answer for a chunk; a last segment without an end lasts as long as the chunk.
  ghost function SpokenFrom(raw: seq<LowMemVad.Speech>, i: nat, offset: nat): real
    requires i < |raw|
  {
    offset as real + raw[i].start * 16000.0
  }

  ghost function SpokenUntil(raw: seq<LowMemVad.Speech>, i: nat, offset: nat, frames: nat): real
    requires i < |raw|
  {
    if i == |raw| - 1 && raw[i].end < LowMemVad.EPS then (offset + frames) as real
    else offset as real + raw[i].end * 16000.0
  }

  // Half a millisecond is eight frames.
  ghost predicate Surrounds(p: Piece, from: real, end: real, totalFrames: nat) {
    p.realStart as real <= from + 8.0 && (p.realEnd >= totalFrames || end - 8.0 <= p.realEnd as real)
  }

  lemma SurroundsInSeconds(
    p: Piece, raw: seq<LowMemVad.Speech>, i: nat, offset: nat, frames: nat, totalFrames: nat)
    requires i < |raw|
    requires var x := LowMemVad.Spoken(raw, i, offset, frames);
      p.realStart <= FirstFrame(x) && EndFrame(x, totalFrames) <= p.realEnd
    ensures Surrounds(p, SpokenFrom(raw, i, offset), SpokenUntil(raw, i, offset, frames), totalFrames)
  {
    var x := LowMemVad.Spoken(raw, i, offset, frames);
    assert x.start * 16000.0 == SpokenFrom(raw, i, offset);
    assert x.end * 16000.0 == SpokenUntil(raw, i, offset, frames);
    LowMemVad.RoundMillisIsNearest(x.start);
    LowMemVad.RoundMillisIsNearest(x.end);
    hide LowMemVad.RoundMillis, LowMemVad.Spoken;
  }

  lemma {:induction false} KeptFinds(segments: seq<Segment>, totalFrames: nat, i: nat) returns (k: nat)
    requires i < |segments| && InRange(segments[i], totalFrames)
    ensures k < |Kept(segments, totalFrames)| && Kept(segments, totalFrames)[k] == segments[i]
  {
    if i == 0 {
      k := 0;
    } else {
      k := KeptFinds(segments[1..], totalFrames, i - 1);
      k := if InRange(segments[0], totalFrames) then k + 1 else k;
    }
  }

  // A segment in range lies in its piece as far as the recording goes.
  lemma PieceOfSegment(segments: seq<Segment>, i: nat, totalFrames: nat, padMillis: int) returns (k: nat)
    requires SortedSegments(segments) && padMillis >= 0 && i < |segments| && InRange(segments[i], totalFrames)
    ensures var pieces := AllPieces(segments, totalFrames, padMillis);
      k < |pieces| && pieces[k].realStart <= segments[i].startMs * SAMPLE_RATE_KHZ
      && Min(totalFrames, segments[i].endMs * SAMPLE_RATE_KHZ) <= pieces[k].realEnd
  {
    hide Kept, Pieces;
    k := KeptFinds(segments, totalFrames, i);
    PiecesOfKept(segments, 0, 0, totalFrames, padMillis);
    assert segments[0..] == segments;
    PaddedRanges(segments, totalFrames, padMillis);
  }

  // Rounding a covered stretch and its cover keeps it covered.
  lemma CoverInMillis(joined: seq<LowMemVad.Speech>, x: LowMemVad.Speech, total: nat) returns (i: nat)
    requires LowMemVad.Covers(joined, x) && LowMemVad.Within(joined, 0.0, LowMemVad.Seconds(total))
    requires IsKept(x, total)
    ensures i < |joined| && InRange(LowMemVad.Rounded(joined)[i], total)
    ensures LowMemVad.Rounded(joined)[i].startMs * SAMPLE_RATE_KHZ <= FirstFrame(x)
    ensures EndFrame(x, total) <= Min(total, LowMemVad.Rounded(joined)[i].endMs * SAMPLE_RATE_KHZ)
  {
    i :| 0 <= i < |joined| && joined[i].start <= x.start && x.end <= joined[i].end;
    LowMemVad.RoundMillisMonotone(0.0, joined[i].start);
    LowMemVad.RoundMillisMonotone(joined[i].start, x.start);
    LowMemVad.RoundMillisMonotone(x.end, joined[i].end);
  }

  // Every stretch that the detector hears in some chunk and that is not empty in milliseconds lies,
  // up to half a millisecond, in a piece of some part that is sent.
  lemma DetectedSpeechIsSent(pcm: seq<byte>, detect: LowMemVad.Detector, c: nat, i: nat) returns (p: nat, k: nat)
    requires var total := |pcm| / BYTES_PER_FRAME;
      && LowMemVad.GoodChunks(detect, total) && LowMemVad.IsChunk(c, total)
      && var raw := LowMemVad.Answer(detect, c, total);
         i < |raw|
         && IsKept(LowMemVad.Spoken(raw, i, c * LowMemVad.CHUNK_MAX_FRAMES, LowMemVad.ChunkLength(c, total)), total)
    ensures Detection(pcm, detect).Ok?
    ensures var total, parts := |pcm| / BYTES_PER_FRAME, SentParts(pcm, Detection(pcm, detect).value);
      var raw, offset := LowMemVad.Answer(detect, c, total), c * LowMemVad.CHUNK_MAX_FRAMES;
      p < |parts| && k < |parts[p]|
      && Surrounds(parts[p][k], SpokenFrom(raw, i, offset),
                   SpokenUntil(raw, i, offset, LowMemVad.ChunkLength(c, total)), total)
  {
    var total := |pcm| / BYTES_PER_FRAME;
    var offset, frames := c * LowMemVad.CHUNK_MAX_FRAMES, LowMemVad.ChunkLength(c, total);
    var raw := LowMemVad.Answer(detect, c, total);
    var x := LowMemVad.Spoken(raw, i, offset, frames);
    LowMemVad.GoodFromChunk(detect, 0, total);
    hide LowMemVad.GoodChunks, LowMemVad.SeamAt, LowMemVad.LastEnd, LowMemVad.HeardBefore;
    LowMemVad.EveryChunkIsCovered(detect, c, total);
    p, k := CoveredIsSent(pcm, detect, x);
    SurroundsInSeconds(SentParts(pcm, Detection(pcm, detect).value)[p][k], raw, i, offset, frames, total);
  }

  lemma CoveredIsSent(pcm: seq<byte>, detect: LowMemVad.Detector, x: LowMemVad.Speech) returns (p: nat, k: nat)
    requires var total := |pcm| / BYTES_PER_FRAME;
      && LowMemVad.GoodDetector(detect, 0, total) && IsKept(x, total)
      && LowMemVad.Joined([], 0, total, detect).Ok?
      && LowMemVad.Covers(LowMemVad.Joined([], 0, total, detect).value, x)
    ensures Detection(pcm, detect).Ok?
    ensures var parts := SentParts(pcm, Detection(pcm, detect).value);
      p < |parts| && k < |parts[p]|
      && parts[p][k].realStart <= FirstFrame(x) && EndFrame(x, |pcm| / BYTES_PER_FRAME) <= parts[p][k].realEnd
  {
    var total := |pcm| / BYTES_PER_FRAME;
    DetectionIsSorted(pcm, detect);
    LowMemVad.LowMemoryVad(total, detect);
    hide LowMemVad.Heard, LowMemVad.Joined, LowMemVad.Covers, LowMemVad.Within, LowMemVad.GoodDetector;
    hide AllPieces, PartGroups, Groups, Flatten, FlattenEach;
    var joined := LowMemVad.Joined([], 0, total, detect).value;
    var segments := Detection(pcm, detect).value;
    var i := CoverInMillis(joined, x, total);
    hide FirstFrame, EndFrame, InRange, LowMemVad.Rounded, Detection;
    var m := PieceOfSegment(segments, i, total, PAD_MILLIS);
    PartsCoverPieces(segments, total, PAD_MILLIS, TRANSCRIBE_PARAMS);
    p, k := MemberOfFlatten(SentParts(pcm, segments), m);
  }

  // ---- There are few parts ----

  lemma {:induction false} PartsOfLens(groups: seq<seq<Piece>>, target: int)
    ensures var parts, lens := Parts(groups, Lens(groups), target), Parts(Lens(groups), Lens(groups), target);
      |parts| == |lens| && forall p :: 0 <= p < |parts| ==> lens[p] == Lens(parts[p])
  {
    if groups != [] {
      var lens := Lens(groups);
      var n := PartCount(lens, 0, target);
      assert lens[..n] == Lens(groups[..n]) && lens[n..] == Lens(groups[n..]);
      PartsOfLens(groups[n..], target);
    }
  }

  lemma {:induction false} SumOfLens(groups: seq<seq<Piece>>)
    ensures Sum(Lens(groups)) == Frames(Flatten(groups))
  {
    if groups != [] {
      assert Lens(groups)[1..] == Lens(groups[1..]);
      SumOfLens(groups[1..]);
      LayoutRanges(groups[0], Flatten(groups[1..]), 0);
    }
  }

  lemma GroupsHaveLength(pcm: seq<byte>, segments: seq<Segment>)
    requires SortedSegments(segments)
    ensures var lens := Lens(SentGroups(pcm, segments)); forall i :: 0 <= i < |lens| ==> lens[i] >= 0
  {
    hide Groups, Frames;
    var groups := SentGroups(pcm, segments);
    forall i | 0 <= i < |groups| ensures Frames(groups[i]) >= 0 {
      SentGroupsInside(pcm, segments, i);
      AudioLength(pcm, groups[i]);
    }
  }

  // At most one part more than the limit, and not even that unless the last part is tiny.
  lemma SentPartsAreFew(pcm: seq<byte>, segments: seq<Segment>)
    requires SortedSegments(segments)
    ensures var parts := SentParts(pcm, segments);
      |parts| <= PARTS_MAX + 1
      && (parts != [] && Frames(parts[|parts| - 1]) >= PARTS_MAX ==> |parts| <= PARTS_MAX)
  {
    hide Groups, Parts, Flatten, Frames, Sum;
    var groups := SentGroups(pcm, segments);
    var lens, target := Lens(groups), Target(Frames(Flatten(groups)));
    GroupsHaveLength(pcm, segments);
    SumOfLens(groups);
    PartsOfLens(groups, target);
    PartLimit(lens);
    if PartGroups(groups) != [] {
      SumOfLens(PartGroups(groups)[|PartGroups(groups)| - 1]);
    }
  }
}
