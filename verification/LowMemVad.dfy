/**
 * Voice detection in bounded memory: the recording is processed chunk by chunk and the
 * detected segments are joined with a seam at every chunk boundary. Times are seconds,
 * taken as exact reals.
 */
module LowMemVad {
  import opened Wrappers
  import SpeechPadding

  datatype Speech = Speech(start: real, end: real)

  const EPS := 0.000001
  const SEAM_RADIUS := 1.0
  const CHUNK_MAX_FRAMES := 4_194_304
  const MIN_CHUNK_FRAMES := 512

  // Detection on `frames` frames from a frame offset; times are relative to the chunk.
  type Detector = (nat, nat) -> Option<seq<Speech>>

  datatype Error = DetectionFailed | OutOfRange

  function Seconds(frames: nat): real { frames as real / 16000.0 }

  function Max(a: real, b: real): real { if a < b then b else a }

  function Min(a: real, b: real): real { if a < b then a else b }

  // An open last segment ends with the chunk.
  function Finalized(segments: seq<Speech>, rangeEnd: real): seq<Speech> {
    var n := |segments|;
    if n > 0 && segments[n - 1].end < EPS
    then segments[n - 1 := segments[n - 1].(end := rangeEnd)] else segments
  }

  function Shifted(segments: seq<Speech>, delta: real): seq<Speech> {
    seq(|segments|, i requires 0 <= i < |segments| => Speech(segments[i].start + delta, segments[i].end + delta))
  }

  predicate EndsBy(segments: seq<Speech>, limit: real) {
    forall i :: 0 <= i < |segments| ==> segments[i].end <= limit
  }

  // The seam replaces a body segment that ends near the boundary and a tail segment that starts near it.
  function Concat(body: seq<Speech>, bodyStart: real, bodyEnd: real, tail: seq<Speech>, tailEnd: real): seq<Speech> {
    if body == [] then tail
    else if tail == [] then body
    else
      var seamStart := Max(bodyStart, bodyEnd - SEAM_RADIUS);
      var seamEnd := Min(bodyEnd + SEAM_RADIUS, tailEnd);
      var last := body[|body| - 1];
      var (left, start) := if last.end > seamStart - EPS then (body[..|body| - 1], last.start) else (body, seamStart);
      var (right, end) := if tail[0].start < seamEnd + EPS then (tail[1..], tail[0].end) else (tail, seamEnd);
      left + [Speech(start, end)] + right
  }

  function ChunkFrames(offset: nat, totalFrames: nat): nat
    requires offset <= totalFrames
  {
    if totalFrames - offset < CHUNK_MAX_FRAMES then totalFrames - offset else CHUNK_MAX_FRAMES
  }

  function ChunkSpeech(raw: seq<Speech>, offset: nat, frames: nat): seq<Speech> {
    Shifted(Finalized(raw, Seconds(frames)), Seconds(offset))
  }

  // The joined segments of the chunks from `offset` on, after `all` has been joined before it.
  function Joined(all: seq<Speech>, offset: nat, totalFrames: nat, detect: Detector): Result<seq<Speech>, Error>
    requires offset <= totalFrames
    decreases totalFrames - offset
  {
    var frames := ChunkFrames(offset, totalFrames);
    if frames < MIN_CHUNK_FRAMES then Ok(all)
    else match detect(offset, frames)
      case None => Err(DetectionFailed)
      case Some(raw) =>
        var chunk := ChunkSpeech(raw, offset, frames);
        if !EndsBy(chunk, Seconds(offset) + Seconds(frames) + EPS) then Err(OutOfRange)
        else Joined(Concat(all, 0.0, Seconds(offset), chunk, Seconds(offset) + Seconds(frames)),
                    offset + frames, totalFrames, detect)
  }

  // ---- The code, which updates the slices in place ----

  method FinalizeSegmentSlice(segments: array<Speech>, rangeEnd: real)
    modifies segments
    ensures segments[..] == Finalized(old(segments[..]), rangeEnd)
  {
    var count := segments.Length;
    if count > 0 {
      var lastEnd := segments[count - 1].end;
      if lastEnd < EPS {
        segments[count - 1] := segments[count - 1].(end := rangeEnd);
      }
    }
  }

  // Stops at the first segment that ends beyond the range.
  method AdjustSegmentValues(segments: array<Speech>, rangeStart: real, rangeEnd: real) returns (ok: bool)
    modifies segments
    ensures ok <==> EndsBy(Shifted(old(segments[..]), rangeStart), rangeEnd + EPS)
    ensures ok ==> segments[..] == Shifted(old(segments[..]), rangeStart)
  {
    ghost var was := segments[..];
    for i := 0 to segments.Length
      invariant forall j :: 0 <= j < i ==>
        segments[j] == Shifted(was, rangeStart)[j] && segments[j].end <= rangeEnd + EPS
      invariant forall j :: i <= j < segments.Length ==> segments[j] == was[j]
    {
      segments[i] := Speech(segments[i].start + rangeStart, segments[i].end + rangeStart);
      if segments[i].end > rangeEnd + EPS {
        assert Shifted(was, rangeStart)[i].end > rangeEnd + EPS;
        return false;
      }
    }
    return true;
  }

  method ConcatSegments(body: seq<Speech>, bodyStart: real, bodyEnd: real, tail: seq<Speech>, tailEnd: real)
    returns (result: seq<Speech>)
    ensures result == Concat(body, bodyStart, bodyEnd, tail, tailEnd)
  {
    if |body| == 0 {
      return tail;
    }
    if |tail| == 0 {
      return body;
    }
    var left, right := body, tail;
    var seamStart := Max(bodyStart, bodyEnd - SEAM_RADIUS);
    var seamEnd := Min(bodyEnd + SEAM_RADIUS, tailEnd);
    if left[|left| - 1].end > seamStart - EPS {
      seamStart := left[|left| - 1].start;
      left := left[..|left| - 1];
    }
    if right[0].start < seamEnd + EPS {
      seamEnd := right[0].end;
      right := right[1..];
    }
    result := left + [Speech(seamStart, seamEnd)];
    result := result + right;
  }

  method ChunkSegments(raw: seq<Speech>, offset: nat, frames: nat) returns (result: Option<seq<Speech>>)
    ensures var chunk := ChunkSpeech(raw, offset, frames);
      result == if EndsBy(chunk, Seconds(offset) + Seconds(frames) + EPS) then Some(chunk) else None
  {
    var segments := new Speech[|raw|](i requires 0 <= i < |raw| => raw[i]);
    assert segments[..] == raw;
    var rangeStart := Seconds(offset);
    var rangeDuration := Seconds(frames);
    FinalizeSegmentSlice(segments, rangeDuration);
    var ok := AdjustSegmentValues(segments, rangeStart, rangeStart + rangeDuration);
    if !ok {
      return None;
    }
    return Some(segments[..]);
  }

  method ApplyVadLowMem(totalFrames: nat, detect: Detector) returns (result: Result<seq<Speech>, Error>)
    ensures result == Joined([], 0, totalFrames, detect)
  {
    hide Concat, ChunkSpeech, EndsBy, Seconds;
    var allSegments: seq<Speech> := [];
    var offsetFrames := 0;
    while offsetFrames < totalFrames
      invariant offsetFrames <= totalFrames
      invariant Joined([], 0, totalFrames, detect) == Joined(allSegments, offsetFrames, totalFrames, detect)
    {
      var left := totalFrames - offsetFrames;
      var frames := if left < CHUNK_MAX_FRAMES then left else CHUNK_MAX_FRAMES;
      if frames < MIN_CHUNK_FRAMES {
        offsetFrames := offsetFrames + frames;
        return Ok(allSegments);
      }
      var detected := detect(offsetFrames, frames);
      if detected.None? {
        return Err(DetectionFailed);
      }
      var rangeStart := Seconds(offsetFrames);
      var rangeEnd := rangeStart + Seconds(frames);
      var chunkSegments := ChunkSegments(detected.value, offsetFrames, frames);
      if chunkSegments.None? {
        return Err(OutOfRange);
      }
      allSegments := ConcatSegments(allSegments, 0.0, rangeStart, chunkSegments.value, rangeEnd);
      offsetFrames := offsetFrames + frames;
    }
    return Ok(allSegments);
  }

  // ---- What the joined segments satisfy ----

  ghost predicate Sorted(s: seq<Speech>) {
    && (forall i :: 0 <= i < |s| ==> s[i].start <= s[i].end)
    && (forall i, j :: 0 <= i < j < |s| ==> s[i].end <= s[j].start)
  }

  ghost predicate Within(s: seq<Speech>, lo: real, hi: real) {
    forall i :: 0 <= i < |s| ==> lo <= s[i].start && s[i].end <= hi
  }

  ghost predicate Hears(s: seq<Speech>, t: real) {
    exists i :: 0 <= i < |s| && s[i].start <= t <= s[i].end
  }

  // The whole of x lies in one segment of s.
  ghost predicate Covers(s: seq<Speech>, x: Speech) {
    exists i :: 0 <= i < |s| && s[i].start <= x.start && x.end <= s[i].end
  }

  ghost predicate CoversAll(s: seq<Speech>, xs: seq<Speech>) {
    forall i :: 0 <= i < |xs| ==> Covers(s, xs[i])
  }

  ghost predicate Near(t: real, boundary: real) {
    boundary - SEAM_RADIUS - EPS <= t <= boundary + SEAM_RADIUS + EPS
  }

  // The seam as the code computes it: what is left of the body, the seam, what is left of the tail.
  lemma ConcatShape(body: seq<Speech>, boundary: real, tail: seq<Speech>, tailEnd: real)
    returns (left: seq<Speech>, seam: Speech, right: seq<Speech>)
    requires body != [] && tail != []
    requires Sorted(body) && Within(body, 0.0, boundary) && Sorted(tail) && Within(tail, boundary, tailEnd)
    requires 0.0 <= boundary <= tailEnd
    ensures Concat(body, 0.0, boundary, tail, tailEnd) == left + [seam] + right
    ensures body == left || (body == left + [body[|body| - 1]] && seam.start == body[|body| - 1].start
                             && body[|body| - 1].end > boundary - SEAM_RADIUS - EPS)
    ensures tail == right || (tail == [tail[0]] + right && seam.end == tail[0].end
                              && tail[0].start < boundary + SEAM_RADIUS + EPS)
    ensures body == left ==> boundary - SEAM_RADIUS <= seam.start
    ensures tail == right ==> seam.end <= boundary + SEAM_RADIUS
    ensures 0.0 <= seam.start <= boundary <= seam.end <= tailEnd
    ensures forall i :: 0 <= i < |left| ==> left[i].end <= seam.start
    ensures forall i :: 0 <= i < |right| ==> seam.end <= right[i].start
  {
    var seamStart := Max(0.0, boundary - SEAM_RADIUS);
    var seamEnd := Min(boundary + SEAM_RADIUS, tailEnd);
    var last := body[|body| - 1];
    left := if last.end > seamStart - EPS then body[..|body| - 1] else body;
    right := if tail[0].start < seamEnd + EPS then tail[1..] else tail;
    seam := Speech(
      if last.end > seamStart - EPS then last.start else seamStart,
      if tail[0].start < seamEnd + EPS then tail[0].end else seamEnd);
  }

  lemma BridgeSorted(left: seq<Speech>, seam: Speech, right: seq<Speech>, lo: real, hi: real)
    requires Sorted(left) && Sorted(right) && Within(left, lo, hi) && Within(right, lo, hi)
    requires lo <= seam.start <= seam.end <= hi
    requires forall i :: 0 <= i < |left| ==> left[i].end <= seam.start
    requires forall i :: 0 <= i < |right| ==> seam.end <= right[i].start
    ensures Sorted(left + [seam] + right) && Within(left + [seam] + right, lo, hi)
  {
  }

  lemma SortedParts(a: seq<Speech>, b: seq<Speech>, lo: real, mid: real, hi: real)
    requires Sorted(a + b) && Within(a + b, lo, mid) && mid <= hi
    ensures Sorted(a) && Sorted(b) && Within(a, lo, hi) && Within(b, lo, hi)
  {
    assert forall i :: 0 <= i < |a| ==> a[i] == (a + b)[i];
    assert forall i :: 0 <= i < |b| ==> b[i] == (a + b)[|a| + i];
  }

  lemma WithinMore(s: seq<Speech>, lo: real, hi: real, less: real)
    requires Within(s, lo, hi) && less <= lo
    ensures Within(s, less, hi)
  {
  }

  lemma ConcatSorted(body: seq<Speech>, boundary: real, tail: seq<Speech>, tailEnd: real)
    requires Sorted(body) && Within(body, 0.0, boundary) && Sorted(tail) && Within(tail, boundary, tailEnd)
    requires 0.0 <= boundary <= tailEnd
    ensures Sorted(Concat(body, 0.0, boundary, tail, tailEnd))
    ensures Within(Concat(body, 0.0, boundary, tail, tailEnd), 0.0, tailEnd)
  {
    if body != [] && tail != [] {
      var left, seam, right := ConcatShape(body, boundary, tail, tailEnd);
      hide Concat, Sorted, Within;
      assert body == left + body[|left|..] && tail == tail[..|tail| - |right|] + right;
      SortedParts(left, body[|left|..], 0.0, boundary, tailEnd);
      WithinMore(tail, boundary, tailEnd, 0.0);
      SortedParts(tail[..|tail| - |right|], right, 0.0, tailEnd, tailEnd);
      BridgeSorted(left, seam, right, 0.0, tailEnd);
    }
  }

  lemma ConcatCovers(body: seq<Speech>, boundary: real, tail: seq<Speech>, tailEnd: real, x: Speech)
    requires Sorted(body) && Within(body, 0.0, boundary) && Sorted(tail) && Within(tail, boundary, tailEnd)
    requires 0.0 <= boundary <= tailEnd
    requires Covers(body, x) || Covers(tail, x)
    ensures Covers(Concat(body, 0.0, boundary, tail, tailEnd), x)
  {
    if body != [] && tail != [] {
      var left, seam, right := ConcatShape(body, boundary, tail, tailEnd);
      hide Concat, Sorted;
      var result := left + [seam] + right;
      assert result[|left|] == seam;
      if Covers(body, x) {
        var i :| 0 <= i < |body| && body[i].start <= x.start && x.end <= body[i].end;
        if i < |left| {
          assert result[i] == body[i];
        } else {
          assert result[|left|].start <= x.start && x.end <= result[|left|].end;
        }
      } else {
        var i :| 0 <= i < |tail| && tail[i].start <= x.start && x.end <= tail[i].end;
        if |tail| == |right| {
          assert result[|left| + 1 + i] == tail[i];
        } else if i > 0 {
          assert result[|left| + i] == tail[i];
        } else {
          assert result[|left|].start <= x.start && x.end <= result[|left|].end;
        }
      }
    }
  }

  // What the seam adds to its neighbours is close to the boundary.
  lemma SeamIsNear(body: seq<Speech>, boundary: real, tail: seq<Speech>, seam: Speech, t: real)
    requires body != [] && tail != [] && seam.start <= t <= seam.end
    requires boundary - SEAM_RADIUS <= seam.start
             || (seam.start == body[|body| - 1].start && body[|body| - 1].end > boundary - SEAM_RADIUS - EPS)
    requires seam.end <= boundary + SEAM_RADIUS
             || (seam.end == tail[0].end && tail[0].start < boundary + SEAM_RADIUS + EPS)
    ensures Hears(body, t) || Hears(tail, t) || Near(t, boundary)
  {
    if t < boundary - SEAM_RADIUS - EPS {
      assert body[|body| - 1].start <= t <= body[|body| - 1].end;
    } else if t > boundary + SEAM_RADIUS + EPS {
      assert tail[0].start <= t <= tail[0].end;
    }
  }

  lemma HearsPart(left: seq<Speech>, seam: Speech, right: seq<Speech>, t: real)
    requires Hears(left + [seam] + right, t)
    ensures Hears(left, t) || seam.start <= t <= seam.end || Hears(right, t)
  {
    var result := left + [seam] + right;
    var i :| 0 <= i < |result| && result[i].start <= t <= result[i].end;
    assert i < |left| ==> left[i] == result[i];
    assert i > |left| ==> right[i - |left| - 1] == result[i];
  }

  lemma ConcatAddsNearSeam(body: seq<Speech>, boundary: real, tail: seq<Speech>, tailEnd: real, t: real)
    requires Sorted(body) && Within(body, 0.0, boundary) && Sorted(tail) && Within(tail, boundary, tailEnd)
    requires 0.0 <= boundary <= tailEnd
    requires Hears(Concat(body, 0.0, boundary, tail, tailEnd), t)
    ensures Hears(body, t) || Hears(tail, t) || Near(t, boundary)
  {
    if body != [] && tail != [] {
      var left, seam, right := ConcatShape(body, boundary, tail, tailEnd);
      hide Concat, Sorted, Within, Near, Hears;
      HearsPart(left, seam, right, t);
      HearsEither(left, [body[|body| - 1]], t);
      HearsEither([tail[0]], right, t);
      if seam.start <= t <= seam.end {
        SeamIsNear(body, boundary, tail, seam, t);
      }
    }
  }

  // Where segment i of an answer ends: a last segment without an end is still open when the chunk ends.
  ghost function SpokenEnd(raw: seq<Speech>, i: nat, duration: real): real
    requires i < |raw|
  {
    if i == |raw| - 1 && raw[i].end < EPS then duration else raw[i].end
  }

  // The detector's answer for one chunk is in order and inside the chunk.
  ghost predicate GoodAnswer(raw: seq<Speech>, duration: real) {
    && (forall i :: 0 <= i < |raw| ==> 0.0 <= raw[i].start <= SpokenEnd(raw, i, duration) <= duration)
    && (forall i, j :: 0 <= i < j < |raw| ==> SpokenEnd(raw, i, duration) <= raw[j].start)
  }

  ghost predicate GoodChunk(detect: Detector, offset: nat, frames: nat) {
    detect(offset, frames).Some? && GoodAnswer(detect(offset, frames).value, Seconds(frames))
  }

  // What the answer for a chunk says about the recording.
  ghost function Spoken(raw: seq<Speech>, i: nat, offset: nat, frames: nat): Speech
    requires i < |raw|
  {
    Speech(raw[i].start + Seconds(offset), SpokenEnd(raw, i, Seconds(frames)) + Seconds(offset))
  }

  ghost function AllSpoken(raw: seq<Speech>, offset: nat, frames: nat): seq<Speech> {
    seq(|raw|, i requires 0 <= i < |raw| => Spoken(raw, i, offset, frames))
  }

  // The code takes the answer for what it says.
  lemma ChunkIsSpoken(raw: seq<Speech>, offset: nat, frames: nat)
    ensures ChunkSpeech(raw, offset, frames) == AllSpoken(raw, offset, frames)
  {
  }

  ghost predicate GoodDetector(detect: Detector, offset: nat, totalFrames: nat)
    requires offset <= totalFrames
    decreases totalFrames - offset
  {
    var frames := ChunkFrames(offset, totalFrames);
    frames < MIN_CHUNK_FRAMES
    || (GoodChunk(detect, offset, frames) && GoodDetector(detect, offset + frames, totalFrames))
  }

  // All speech detected in the chunks from `offset` on.
  ghost function Heard(detect: Detector, offset: nat, totalFrames: nat): seq<Speech>
    requires offset <= totalFrames && GoodDetector(detect, offset, totalFrames)
    decreases totalFrames - offset
  {
    var frames := ChunkFrames(offset, totalFrames);
    if frames < MIN_CHUNK_FRAMES then []
    else AllSpoken(detect(offset, frames).value, offset, frames) + Heard(detect, offset + frames, totalFrames)
  }

  // t is close to a chunk boundary from `offset` on.
  ghost predicate NearBoundary(t: real, offset: nat, totalFrames: nat)
    requires offset <= totalFrames
    decreases totalFrames - offset
  {
    var frames := ChunkFrames(offset, totalFrames);
    frames >= MIN_CHUNK_FRAMES && (Near(t, Seconds(offset)) || NearBoundary(t, offset + frames, totalFrames))
  }

  lemma ChunkIsGood(detect: Detector, offset: nat, frames: nat)
    requires GoodChunk(detect, offset, frames)
    ensures var chunk := ChunkSpeech(detect(offset, frames).value, offset, frames);
      Sorted(chunk) && Within(chunk, Seconds(offset), Seconds(offset) + Seconds(frames))
      && EndsBy(chunk, Seconds(offset) + Seconds(frames) + EPS)
  {
    var raw := detect(offset, frames).value;
    ChunkIsSpoken(raw, offset, frames);
    hide ChunkSpeech;
    assert forall i :: 0 <= i < |raw| ==> AllSpoken(raw, offset, frames)[i] == Spoken(raw, i, offset, frames);
  }

  // One chunk is joined to what has been joined before it.
  lemma JoinedStep(all: seq<Speech>, offset: nat, totalFrames: nat, detect: Detector)
    returns (chunk: seq<Speech>, next: seq<Speech>)
    requires offset <= totalFrames && GoodDetector(detect, offset, totalFrames)
    requires Sorted(all) && Within(all, 0.0, Seconds(offset))
    requires ChunkFrames(offset, totalFrames) >= MIN_CHUNK_FRAMES
    ensures var frames := ChunkFrames(offset, totalFrames);
      var boundary, end := Seconds(offset), Seconds(offset + frames);
      && 0.0 <= boundary <= end && Sorted(chunk) && Within(chunk, boundary, end)
      && next == Concat(all, 0.0, boundary, chunk, end) && Sorted(next) && Within(next, 0.0, end)
      && GoodDetector(detect, offset + frames, totalFrames)
      && Joined(all, offset, totalFrames, detect) == Joined(next, offset + frames, totalFrames, detect)
      && Heard(detect, offset, totalFrames) == chunk + Heard(detect, offset + frames, totalFrames)
      && chunk == AllSpoken(detect(offset, frames).value, offset, frames)
  {
    var frames := ChunkFrames(offset, totalFrames);
    chunk := ChunkSpeech(detect(offset, frames).value, offset, frames);
    ChunkIsSpoken(detect(offset, frames).value, offset, frames);
    var boundary, end := Seconds(offset), Seconds(offset) + Seconds(frames);
    hide Concat, ChunkSpeech, Sorted, Within;
    assert end == Seconds(offset + frames);
    ChunkIsGood(detect, offset, frames);
    ConcatSorted(all, boundary, chunk, end);
    next := Concat(all, 0.0, boundary, chunk, end);
  }

  lemma {:induction false} JoinedSorted(all: seq<Speech>, offset: nat, totalFrames: nat, detect: Detector)
    requires offset <= totalFrames && GoodDetector(detect, offset, totalFrames)
    requires Sorted(all) && Within(all, 0.0, Seconds(offset))
    ensures var joined := Joined(all, offset, totalFrames, detect);
      joined.Ok? && Sorted(joined.value) && Within(joined.value, 0.0, Seconds(totalFrames))
    decreases totalFrames - offset
  {
    if ChunkFrames(offset, totalFrames) >= MIN_CHUNK_FRAMES {
      hide Concat, Sorted, Within, Joined, GoodDetector, Heard;
      var _, next := JoinedStep(all, offset, totalFrames, detect);
      JoinedSorted(next, offset + ChunkFrames(offset, totalFrames), totalFrames, detect);
    }
  }

  lemma {:induction false} JoinedCovers(all: seq<Speech>, offset: nat, totalFrames: nat, detect: Detector)
    requires offset <= totalFrames && GoodDetector(detect, offset, totalFrames)
    requires Sorted(all) && Within(all, 0.0, Seconds(offset)) && Joined(all, offset, totalFrames, detect).Ok?
    ensures forall x :: Covers(all, x) || Covers(Heard(detect, offset, totalFrames), x) ==>
      Covers(Joined(all, offset, totalFrames, detect).value, x)
    decreases totalFrames - offset
  {
    if ChunkFrames(offset, totalFrames) >= MIN_CHUNK_FRAMES {
      hide Concat, Sorted, Within, Joined, GoodDetector, Heard, Covers, Seconds;
      var chunk, next := JoinedStep(all, offset, totalFrames, detect);
      var later := offset + ChunkFrames(offset, totalFrames);
      JoinedCovers(next, later, totalFrames, detect);
      StepCovers(all, Seconds(offset), chunk, Seconds(later), Heard(detect, later, totalFrames),
                 Joined(next, later, totalFrames, detect).value);
    }
  }

  lemma {:induction false} JoinedAddsNear(all: seq<Speech>, offset: nat, totalFrames: nat, detect: Detector)
    requires offset <= totalFrames && GoodDetector(detect, offset, totalFrames)
    requires Sorted(all) && Within(all, 0.0, Seconds(offset)) && Joined(all, offset, totalFrames, detect).Ok?
    ensures forall t :: Hears(Joined(all, offset, totalFrames, detect).value, t) ==>
      Hears(all, t) || Hears(Heard(detect, offset, totalFrames), t) || NearBoundary(t, offset, totalFrames)
    decreases totalFrames - offset
  {
    if ChunkFrames(offset, totalFrames) >= MIN_CHUNK_FRAMES {
      hide Concat, Sorted, Within, Joined, GoodDetector, Heard, Hears, Near, Seconds;
      var chunk, next := JoinedStep(all, offset, totalFrames, detect);
      var later := offset + ChunkFrames(offset, totalFrames);
      JoinedAddsNear(next, later, totalFrames, detect);
      StepAddsNearSeam(all, Seconds(offset), chunk, Seconds(later), Heard(detect, later, totalFrames));
    }
  }

  // The joined segments are sorted, do not overlap and stay inside the recording; nothing
  // that was detected is lost, and whatever was added lies near a chunk boundary.
  lemma {:induction false} JoinedIsSound(all: seq<Speech>, offset: nat, totalFrames: nat, detect: Detector)
    requires offset <= totalFrames && GoodDetector(detect, offset, totalFrames)
    requires Sorted(all) && Within(all, 0.0, Seconds(offset))
    ensures var joined := Joined(all, offset, totalFrames, detect);
      joined.Ok?
      && Sorted(joined.value) && Within(joined.value, 0.0, Seconds(totalFrames))
      && (forall x :: Covers(all, x) || Covers(Heard(detect, offset, totalFrames), x) ==> Covers(joined.value, x))
      && (forall t :: Hears(joined.value, t) ==>
            Hears(all, t) || Hears(Heard(detect, offset, totalFrames), t) || NearBoundary(t, offset, totalFrames))
  {
    hide Sorted, Within, Joined, GoodDetector, Heard, Hears, Covers, NearBoundary;
    JoinedSorted(all, offset, totalFrames, detect);
    JoinedCovers(all, offset, totalFrames, detect);
    JoinedAddsNear(all, offset, totalFrames, detect);
  }

  lemma StepCovers(
    all: seq<Speech>, boundary: real, chunk: seq<Speech>, end: real, rest: seq<Speech>, joined: seq<Speech>)
    requires Sorted(all) && Within(all, 0.0, boundary) && Sorted(chunk) && Within(chunk, boundary, end)
    requires 0.0 <= boundary <= end
    requires forall x :: Covers(Concat(all, 0.0, boundary, chunk, end), x) || Covers(rest, x) ==> Covers(joined, x)
    ensures forall x :: Covers(all, x) || Covers(chunk + rest, x) ==> Covers(joined, x)
  {
    hide Concat, Covers, Sorted, Within;
    forall x | Covers(all, x) || Covers(chunk + rest, x) ensures Covers(joined, x) {
      if Covers(chunk + rest, x) {
        CoversEither(chunk, rest, x);
      }
      if Covers(all, x) || Covers(chunk, x) {
        ConcatCovers(all, boundary, chunk, end, x);
      }
    }
  }

  lemma StepAddsNearSeam(all: seq<Speech>, boundary: real, chunk: seq<Speech>, end: real, rest: seq<Speech>)
    requires Sorted(all) && Within(all, 0.0, boundary) && Sorted(chunk) && Within(chunk, boundary, end)
    requires 0.0 <= boundary <= end
    ensures forall t :: Hears(Concat(all, 0.0, boundary, chunk, end), t) || Hears(rest, t) ==>
      Hears(all, t) || Hears(chunk + rest, t) || Near(t, boundary)
  {
    hide Concat, Hears, Near, Sorted, Within;
    forall t | Hears(Concat(all, 0.0, boundary, chunk, end), t) || Hears(rest, t)
      ensures Hears(all, t) || Hears(chunk + rest, t) || Near(t, boundary)
    {
      if Hears(Concat(all, 0.0, boundary, chunk, end), t) {
        ConcatAddsNearSeam(all, boundary, chunk, end, t);
      }
      HearsEither(chunk, rest, t);
    }
  }

  lemma CoversEither(a: seq<Speech>, b: seq<Speech>, x: Speech)
    requires Covers(a + b, x)
    ensures Covers(a, x) || Covers(b, x)
  {
    var i :| 0 <= i < |a + b| && (a + b)[i].start <= x.start && x.end <= (a + b)[i].end;
    assert i < |a| ==> a[i] == (a + b)[i];
    assert i >= |a| ==> b[i - |a|] == (a + b)[i];
  }

  lemma HearsEither(a: seq<Speech>, b: seq<Speech>, t: real)
    ensures Hears(a, t) || Hears(b, t) ==> Hears(a + b, t)
  {
    if Hears(a, t) {
      var i :| 0 <= i < |a| && a[i].start <= t <= a[i].end;
      assert (a + b)[i] == a[i];
    } else if Hears(b, t) {
      var i :| 0 <= i < |b| && b[i].start <= t <= b[i].end;
      assert (a + b)[|a| + i] == b[i];
    }
  }

  // For a whole recording: every detected segment is covered, whatever the chunking, and time is
  // added only near the inner boundaries, between one chunk and the next.
  lemma {:induction false} LowMemoryVad(totalFrames: nat, detect: Detector)
    requires GoodDetector(detect, 0, totalFrames)
    ensures var joined := Joined([], 0, totalFrames, detect);
      joined.Ok?
      && Sorted(joined.value) && Within(joined.value, 0.0, Seconds(totalFrames))
      && CoversAll(joined.value, Heard(detect, 0, totalFrames))
      && (forall t :: Hears(joined.value, t) ==>
            Hears(Heard(detect, 0, totalFrames), t) || NearBoundary(t, ChunkFrames(0, totalFrames), totalFrames))
  {
    JoinedIsSound([], 0, totalFrames, detect);
    var heard := Heard(detect, 0, totalFrames);
    forall i | 0 <= i < |heard| ensures Covers(heard, heard[i]) {
    }
    if ChunkFrames(0, totalFrames) >= MIN_CHUNK_FRAMES {
      var chunk, next := JoinedStep([], 0, totalFrames, detect);
      assert next == chunk;
      hide Concat, Sorted, Within, Joined, GoodDetector, Heard, Hears, NearBoundary;
      var first := ChunkFrames(0, totalFrames);
      JoinedIsSound(chunk, first, totalFrames, detect);
      forall t | Hears(Joined(chunk, first, totalFrames, detect).value, t)
        ensures Hears(heard, t) || NearBoundary(t, first, totalFrames)
      {
        HearsEither(chunk, Heard(detect, first, totalFrames), t);
      }
    }
  }

  // ---- Chunk by chunk ----

  // Chunk c begins after c full chunks, and what is left is long enough to be looked at.
  ghost predicate IsChunk(c: nat, totalFrames: nat) {
    c * CHUNK_MAX_FRAMES + MIN_CHUNK_FRAMES <= totalFrames
  }

  ghost function ChunkLength(c: nat, totalFrames: nat): nat
    requires IsChunk(c, totalFrames)
  {
    if totalFrames - c * CHUNK_MAX_FRAMES <= CHUNK_MAX_FRAMES then totalFrames - c * CHUNK_MAX_FRAMES
    else CHUNK_MAX_FRAMES
  }

  // The detector answers soundly for every chunk.
  ghost predicate GoodChunks(detect: Detector, totalFrames: nat) {
    forall c: nat :: IsChunk(c, totalFrames) ==> GoodChunk(detect, c * CHUNK_MAX_FRAMES, ChunkLength(c, totalFrames))
  }

  ghost function Answer(detect: Detector, c: nat, totalFrames: nat): seq<Speech>
    requires IsChunk(c, totalFrames)
  {
    match detect(c * CHUNK_MAX_FRAMES, ChunkLength(c, totalFrames))
    case None => []
    case Some(raw) => raw
  }

  lemma {:induction false} GoodFromChunk(detect: Detector, c: nat, totalFrames: nat)
    requires GoodChunks(detect, totalFrames) && c * CHUNK_MAX_FRAMES <= totalFrames
    ensures GoodDetector(detect, c * CHUNK_MAX_FRAMES, totalFrames)
    decreases totalFrames - c * CHUNK_MAX_FRAMES
  {
    var frames := ChunkFrames(c * CHUNK_MAX_FRAMES, totalFrames);
    if frames >= MIN_CHUNK_FRAMES {
      assert IsChunk(c, totalFrames) && frames == ChunkLength(c, totalFrames);
      if frames == CHUNK_MAX_FRAMES {
        GoodFromChunk(detect, c + 1, totalFrames);
      }
    }
  }

  lemma ChunkIsAnswered(detect: Detector, c: nat, totalFrames: nat)
    requires GoodChunks(detect, totalFrames) && IsChunk(c, totalFrames)
    ensures var offset, frames := c * CHUNK_MAX_FRAMES, ChunkLength(c, totalFrames);
      && GoodDetector(detect, offset, totalFrames) && ChunkFrames(offset, totalFrames) == frames >= MIN_CHUNK_FRAMES
      && detect(offset, frames) == Some(Answer(detect, c, totalFrames))
      && offset + frames <= totalFrames && (c > 0 ==> ChunkLength(c - 1, totalFrames) == CHUNK_MAX_FRAMES)
  {
    GoodFromChunk(detect, c, totalFrames);
    hide GoodAnswer, Seconds, GoodDetector;
  }

  ghost predicate HeardBefore(detect: Detector, c: nat, totalFrames: nat)
    requires IsChunk(c, totalFrames)
  {
    c > 0 && (Answer(detect, c - 1, totalFrames) != [] || HeardBefore(detect, c - 1, totalFrames))
  }

  // Where the last speech before chunk c ends, if it is in the chunk before.
  ghost predicate EndsWith(all: seq<Speech>, raw: seq<Speech>, offset: nat, frames: nat) {
    if raw == [] then Within(all, 0.0, Seconds(offset))
    else all != [] && all[|all| - 1].end == Spoken(raw, |raw| - 1, offset, frames).end
  }

  lemma ConcatEnds(body: seq<Speech>, boundary: real, tail: seq<Speech>, tailEnd: real)
    requires Sorted(body) && Within(body, 0.0, boundary) && Sorted(tail) && Within(tail, boundary, tailEnd)
    requires 0.0 <= boundary <= tailEnd
    ensures var all := Concat(body, 0.0, boundary, tail, tailEnd);
      (all == [] <==> body == [] && tail == [])
      && (tail == [] ==> all == body) && (tail != [] ==> all[|all| - 1].end == tail[|tail| - 1].end)
  {
  }

  // What has been joined when detection comes to chunk c.
  ghost predicate JoinedBefore(detect: Detector, c: nat, totalFrames: nat, all: seq<Speech>)
    requires IsChunk(c, totalFrames)
  {
    && Sorted(all) && Within(all, 0.0, Seconds(c * CHUNK_MAX_FRAMES))
    && Joined([], 0, totalFrames, detect) == Joined(all, c * CHUNK_MAX_FRAMES, totalFrames, detect)
    && (all != [] <==> HeardBefore(detect, c, totalFrames))
    && (c > 0 ==> EndsWith(all, Answer(detect, c - 1, totalFrames), (c - 1) * CHUNK_MAX_FRAMES, CHUNK_MAX_FRAMES))
  }

  lemma {:induction false} ChunkIsReached(detect: Detector, c: nat, totalFrames: nat) returns (all: seq<Speech>)
    requires GoodChunks(detect, totalFrames) && IsChunk(c, totalFrames)
    ensures JoinedBefore(detect, c, totalFrames, all)
  {
    hide GoodChunks, Joined, Sorted, Within, Seconds, EndsWith, Answer, ChunkLength;
    if c == 0 {
      all := [];
      NothingJoined();
    } else {
      var before := ChunkIsReached(detect, c - 1, totalFrames);
      all := ReachChunk(detect, c, totalFrames, before);
    }
  }

  lemma NothingJoined()
    ensures Sorted([]) && Within([], 0.0, Seconds(0))
  {
  }

  lemma ReachChunk(detect: Detector, c: nat, totalFrames: nat, before: seq<Speech>) returns (all: seq<Speech>)
    requires GoodChunks(detect, totalFrames) && IsChunk(c, totalFrames) && c > 0
    requires Sorted(before) && Within(before, 0.0, Seconds((c - 1) * CHUNK_MAX_FRAMES))
    ensures IsChunk(c - 1, totalFrames)
    ensures Sorted(all) && Within(all, 0.0, Seconds(c * CHUNK_MAX_FRAMES))
    ensures Joined(before, (c - 1) * CHUNK_MAX_FRAMES, totalFrames, detect)
         == Joined(all, c * CHUNK_MAX_FRAMES, totalFrames, detect)
    ensures all != [] <==> before != [] || Answer(detect, c - 1, totalFrames) != []
    ensures EndsWith(all, Answer(detect, c - 1, totalFrames), (c - 1) * CHUNK_MAX_FRAMES, CHUNK_MAX_FRAMES)
  {
    hide GoodChunks, GoodDetector, Joined, Sorted, Within, Seconds, EndsWith, Answer, ChunkFrames;
    ChunkIsAnswered(detect, c - 1, totalFrames);
    ChunkIsAnswered(detect, c, totalFrames);
    var offset, raw := (c - 1) * CHUNK_MAX_FRAMES, Answer(detect, c - 1, totalFrames);
    assert offset + CHUNK_MAX_FRAMES == c * CHUNK_MAX_FRAMES;
    hide *;
    all := ReachNext(detect, offset, totalFrames, before, raw);
  }

  lemma ReachNext(detect: Detector, offset: nat, totalFrames: nat, before: seq<Speech>, raw: seq<Speech>)
    returns (all: seq<Speech>)
    requires offset <= totalFrames && GoodDetector(detect, offset, totalFrames)
    requires ChunkFrames(offset, totalFrames) >= MIN_CHUNK_FRAMES
    requires detect(offset, ChunkFrames(offset, totalFrames)) == Some(raw)
    requires Sorted(before) && Within(before, 0.0, Seconds(offset))
    ensures var frames := ChunkFrames(offset, totalFrames);
      var chunk := AllSpoken(raw, offset, frames);
      && 0.0 <= Seconds(offset) <= Seconds(offset + frames)
      && Sorted(chunk) && Within(chunk, Seconds(offset), Seconds(offset + frames))
      && all == Concat(before, 0.0, Seconds(offset), chunk, Seconds(offset + frames))
      && Sorted(all) && Within(all, 0.0, Seconds(offset + frames))
      && Joined(before, offset, totalFrames, detect) == Joined(all, offset + frames, totalFrames, detect)
      && GoodDetector(detect, offset + frames, totalFrames)
      && (all != [] <==> before != [] || raw != [])
      && EndsWith(all, raw, offset, frames)
  {
    hide Joined, GoodDetector, Sorted, Within, Heard, Concat, Seconds, Spoken;
    var chunk, next := JoinedStep(before, offset, totalFrames, detect);
    all := next;
    ConcatEnds(before, Seconds(offset), chunk, Seconds(offset + ChunkFrames(offset, totalFrames)));
  }

  lemma MemberCovers(s: seq<Speech>, i: nat)
    requires i < |s|
    ensures Covers(s, s[i])
  {
  }

  // The silence between two stretches of speech on either side of a boundary, as far as it lies within the radius.
  ghost function SeamAt(boundary: real, lastEnd: real, nextStart: real): Speech {
    Speech(
      if lastEnd < boundary - SEAM_RADIUS then boundary - SEAM_RADIUS else lastEnd,
      if nextStart < boundary + SEAM_RADIUS then nextStart else boundary + SEAM_RADIUS)
  }

  lemma ConcatCoversSeam(body: seq<Speech>, boundary: real, tail: seq<Speech>, tailEnd: real)
    requires Sorted(body) && Within(body, 0.0, boundary) && Sorted(tail) && Within(tail, boundary, tailEnd)
    requires 0.0 <= boundary <= tailEnd && body != [] && tail != []
    ensures Covers(Concat(body, 0.0, boundary, tail, tailEnd),
                   SeamAt(boundary, body[|body| - 1].end, tail[0].start))
  {
    var result := Concat(body, 0.0, boundary, tail, tailEnd);
    var left := if body[|body| - 1].end > Max(0.0, boundary - SEAM_RADIUS) - EPS then |body| - 1 else |body|;
    var x := SeamAt(boundary, body[|body| - 1].end, tail[0].start);
    assert result[left].start <= x.start && x.end <= result[left].end;
  }

  // The segments of a chunk are covered, and the silence before them near the boundary.
  ghost predicate Brings(s: seq<Speech>, before: seq<Speech>, boundary: real, chunk: seq<Speech>) {
    && (forall i :: 0 <= i < |chunk| ==> Covers(s, chunk[i]))
    && (before != [] && chunk != [] ==> Covers(s, SeamAt(boundary, before[|before| - 1].end, chunk[0].start)))
  }

  lemma NewIsCovered(before: seq<Speech>, boundary: real, chunk: seq<Speech>, end: real)
    requires Sorted(before) && Within(before, 0.0, boundary) && Sorted(chunk) && Within(chunk, boundary, end)
    requires 0.0 <= boundary <= end
    ensures Brings(Concat(before, 0.0, boundary, chunk, end), before, boundary, chunk)
  {
    hide Concat, Covers, Sorted, Within, SeamAt;
    forall i | 0 <= i < |chunk| ensures Covers(Concat(before, 0.0, boundary, chunk, end), chunk[i]) {
      MemberCovers(chunk, i);
      ConcatCovers(before, boundary, chunk, end, chunk[i]);
    }
    if chunk != [] && before != [] {
      ConcatCoversSeam(before, boundary, chunk, end);
    }
  }

  // What is covered once stays covered.
  lemma LaterBrings(
    all: seq<Speech>, offset: nat, totalFrames: nat, detect: Detector, before: seq<Speech>, boundary: real,
    chunk: seq<Speech>)
    requires offset <= totalFrames && GoodDetector(detect, offset, totalFrames)
    requires Sorted(all) && Within(all, 0.0, Seconds(offset)) && Brings(all, before, boundary, chunk)
    ensures Joined(all, offset, totalFrames, detect).Ok?
    ensures Brings(Joined(all, offset, totalFrames, detect).value, before, boundary, chunk)
  {
    hide Joined, GoodDetector, Heard, Sorted, Within, Covers, SeamAt, Seconds;
    JoinedSorted(all, offset, totalFrames, detect);
    JoinedCovers(all, offset, totalFrames, detect);
  }

  // What one chunk with its seam brings into the joined segments stays there.
  lemma ChunkIsKept(detect: Detector, offset: nat, totalFrames: nat, before: seq<Speech>, raw: seq<Speech>)
    requires offset <= totalFrames && GoodDetector(detect, offset, totalFrames)
    requires ChunkFrames(offset, totalFrames) >= MIN_CHUNK_FRAMES
    requires detect(offset, ChunkFrames(offset, totalFrames)) == Some(raw)
    requires Sorted(before) && Within(before, 0.0, Seconds(offset))
    ensures var joined := Joined(before, offset, totalFrames, detect);
      joined.Ok?
      && Brings(joined.value, before, Seconds(offset), AllSpoken(raw, offset, ChunkFrames(offset, totalFrames)))
  {
    var end := offset + ChunkFrames(offset, totalFrames);
    var chunk := AllSpoken(raw, offset, ChunkFrames(offset, totalFrames));
    var all := ReachNext(detect, offset, totalFrames, before, raw);
    hide *;
    NewIsCovered(before, Seconds(offset), chunk, Seconds(end));
    LaterBrings(all, end, totalFrames, detect, before, Seconds(offset), chunk);
  }

  // Whatever the detector says in any chunk is covered; and if there was speech before it, so is the
  // silence near the boundary until the first speech of the chunk.
  lemma EveryChunkIsCovered(detect: Detector, c: nat, totalFrames: nat)
    requires GoodChunks(detect, totalFrames) && IsChunk(c, totalFrames)
    ensures var joined := Joined([], 0, totalFrames, detect);
      var offset, frames := c * CHUNK_MAX_FRAMES, ChunkLength(c, totalFrames);
      var raw := Answer(detect, c, totalFrames);
      && joined.Ok?
      && (forall i :: 0 <= i < |raw| ==> Covers(joined.value, Spoken(raw, i, offset, frames)))
      && (raw != [] && HeardBefore(detect, c, totalFrames) ==>
            Covers(joined.value, SeamAt(Seconds(offset), LastEnd(detect, c, totalFrames),
                                        Spoken(raw, 0, offset, frames).start)))
  {
    var offset, raw := c * CHUNK_MAX_FRAMES, Answer(detect, c, totalFrames);
    var chunk := AllSpoken(raw, offset, ChunkLength(c, totalFrames));
    var before := ChunkIsReached(detect, c, totalFrames);
    ChunkIsAnswered(detect, c, totalFrames);
    assert forall i :: 0 <= i < |raw| ==> chunk[i] == Spoken(raw, i, offset, ChunkLength(c, totalFrames));
    hide GoodChunks, Joined, GoodDetector, Sorted, Within, Covers, SeamAt, Spoken, Seconds, LastEnd, Answer, EndsWith;
    ChunkIsKept(detect, offset, totalFrames, before, raw);
    if chunk != [] && before != [] {
      SameSeam(detect, c, totalFrames, before, chunk[0].start);
    }
  }

  // Earlier chunks end long before the radius.
  lemma SameSeam(detect: Detector, c: nat, totalFrames: nat, before: seq<Speech>, nextStart: real)
    requires IsChunk(c, totalFrames) && c > 0 && before != []
    requires EndsWith(before, Answer(detect, c - 1, totalFrames), (c - 1) * CHUNK_MAX_FRAMES, CHUNK_MAX_FRAMES)
    ensures var boundary := Seconds(c * CHUNK_MAX_FRAMES);
      SeamAt(boundary, before[|before| - 1].end, nextStart)
      == SeamAt(boundary, LastEnd(detect, c, totalFrames), nextStart)
  {
    assert Seconds(c * CHUNK_MAX_FRAMES) == Seconds((c - 1) * CHUNK_MAX_FRAMES) + Seconds(CHUNK_MAX_FRAMES);
    assert ChunkLength(c - 1, totalFrames) == CHUNK_MAX_FRAMES;
  }

  // Where the speech of the chunk before ends; if there is none, some time outside the radius.
  ghost function LastEnd(detect: Detector, c: nat, totalFrames: nat): real
    requires IsChunk(c, totalFrames) && c > 0
  {
    var raw, offset := Answer(detect, c - 1, totalFrames), (c - 1) * CHUNK_MAX_FRAMES;
    if raw == [] then Seconds(offset) else Spoken(raw, |raw| - 1, offset, CHUNK_MAX_FRAMES).end
  }

  // ---- Failures ----

  // The detector answers for chunk c, and nothing it says ends beyond the chunk.
  ghost predicate Acceptable(detect: Detector, c: nat, totalFrames: nat)
    requires IsChunk(c, totalFrames)
  {
    var frames := ChunkLength(c, totalFrames);
    match detect(c * CHUNK_MAX_FRAMES, frames)
    case None => false
    case Some(raw) => forall i :: 0 <= i < |raw| ==> SpokenEnd(raw, i, Seconds(frames)) <= Seconds(frames) + EPS
  }

  ghost predicate AllAcceptable(detect: Detector, from: nat, end: nat, totalFrames: nat) {
    forall c: nat :: from <= c < end && IsChunk(c, totalFrames) ==> Acceptable(detect, c, totalFrames)
  }

  lemma ChunkEndsBy(raw: seq<Speech>, offset: nat, frames: nat)
    ensures EndsBy(ChunkSpeech(raw, offset, frames), Seconds(offset) + Seconds(frames) + EPS)
            <==> forall i :: 0 <= i < |raw| ==> SpokenEnd(raw, i, Seconds(frames)) <= Seconds(frames) + EPS
  {
    ChunkIsSpoken(raw, offset, frames);
    hide ChunkSpeech, SpokenEnd, Seconds;
    var chunk := AllSpoken(raw, offset, frames);
    assert forall i :: 0 <= i < |raw| ==>
      chunk[i].end == SpokenEnd(raw, i, Seconds(frames)) + Seconds(offset);
  }

  lemma ChunkAccepted(all: seq<Speech>, detect: Detector, c: nat, totalFrames: nat) returns (next: seq<Speech>)
    requires IsChunk(c, totalFrames)
    ensures var offset, frames := c * CHUNK_MAX_FRAMES, ChunkLength(c, totalFrames);
      && offset + frames <= totalFrames
      && Joined(all, offset, totalFrames, detect)
         == if Acceptable(detect, c, totalFrames) then Joined(next, offset + frames, totalFrames, detect)
            else Err(if detect(offset, frames).None? then DetectionFailed else OutOfRange)
  {
    var offset, frames := c * CHUNK_MAX_FRAMES, ChunkLength(c, totalFrames);
    assert ChunkFrames(offset, totalFrames) == frames;
    hide Concat, EndsBy, ChunkSpeech, SpokenEnd, Seconds;
    next := [];
    match detect(offset, frames)
    case None =>
    case Some(raw) =>
      ChunkEndsBy(raw, offset, frames);
      next := Concat(all, 0.0, Seconds(offset), ChunkSpeech(raw, offset, frames), Seconds(offset) + Seconds(frames));
  }

  lemma AcceptableFrom(detect: Detector, c: nat, totalFrames: nat)
    requires IsChunk(c, totalFrames)
    ensures AllAcceptable(detect, c, totalFrames + 1, totalFrames)
            <==> Acceptable(detect, c, totalFrames) && AllAcceptable(detect, c + 1, totalFrames + 1, totalFrames)
    ensures ChunkLength(c, totalFrames) < CHUNK_MAX_FRAMES ==>
      AllAcceptable(detect, c + 1, totalFrames + 1, totalFrames)
    ensures ChunkLength(c, totalFrames) <= CHUNK_MAX_FRAMES && c <= totalFrames
  {
    hide Acceptable;
  }

  // Joining succeeds exactly if every chunk is acceptable.
  lemma {:induction false} JoinedSucceedsExactly(all: seq<Speech>, c: nat, totalFrames: nat, detect: Detector)
    requires c * CHUNK_MAX_FRAMES <= totalFrames
    ensures Joined(all, c * CHUNK_MAX_FRAMES, totalFrames, detect).Ok?
            <==> AllAcceptable(detect, c, totalFrames + 1, totalFrames)
    decreases totalFrames - c * CHUNK_MAX_FRAMES
  {
    if IsChunk(c, totalFrames) {
      var next := ChunkAccepted(all, detect, c, totalFrames);
      AcceptableFrom(detect, c, totalFrames);
      var frames := ChunkLength(c, totalFrames);
      assert c * CHUNK_MAX_FRAMES + frames == (if frames == CHUNK_MAX_FRAMES then (c + 1) * CHUNK_MAX_FRAMES
                                               else totalFrames);
      hide *;
      if frames == CHUNK_MAX_FRAMES {
        JoinedSucceedsExactly(next, c + 1, totalFrames, detect);
      } else {
        NoMoreChunks(next, totalFrames, detect);
      }
    } else {
      TooShortForChunk(all, c, totalFrames, detect);
    }
  }

  lemma TooShortForChunk(all: seq<Speech>, c: nat, totalFrames: nat, detect: Detector)
    requires c * CHUNK_MAX_FRAMES <= totalFrames && !IsChunk(c, totalFrames)
    ensures Joined(all, c * CHUNK_MAX_FRAMES, totalFrames, detect) == Ok(all)
    ensures AllAcceptable(detect, c, totalFrames + 1, totalFrames)
  {
    hide Acceptable;
  }

  lemma NoMoreChunks(all: seq<Speech>, totalFrames: nat, detect: Detector)
    ensures Joined(all, totalFrames, totalFrames, detect) == Ok(all)
  {
  }

  // The first chunk that is not acceptable gives the error.
  lemma {:induction false} FirstFailureIsReported(
    all: seq<Speech>, c: nat, d: nat, totalFrames: nat, detect: Detector)
    requires c <= d && IsChunk(d, totalFrames) && !Acceptable(detect, d, totalFrames)
    requires AllAcceptable(detect, c, d, totalFrames)
    ensures Joined(all, c * CHUNK_MAX_FRAMES, totalFrames, detect)
         == Err(if detect(d * CHUNK_MAX_FRAMES, ChunkLength(d, totalFrames)).None? then DetectionFailed else OutOfRange)
    decreases d - c
  {
    assert IsChunk(c, totalFrames) && (c < d ==> ChunkLength(c, totalFrames) == CHUNK_MAX_FRAMES);
    var next := ChunkAccepted(all, detect, c, totalFrames);
    hide Joined, Acceptable;
    if c < d {
      FirstFailureIsReported(next, c + 1, d, totalFrames, detect);
    }
  }

  // Rounding of seconds to milliseconds, halves away from zero.
  function RoundMillis(seconds: real): int {
    if seconds >= 0.0 then (seconds * 1000.0 + 0.5).Floor else -((-seconds * 1000.0 + 0.5).Floor)
  }

  function Rounded(s: seq<Speech>): seq<SpeechPadding.Segment> {
    seq(|s|, i requires 0 <= i < |s| => SpeechPadding.Segment(RoundMillis(s[i].start), RoundMillis(s[i].end)))
  }

  // The nearest millisecond; halfway between two it is the one away from zero.
  lemma RoundMillisIsNearest(seconds: real)
    ensures var ms := RoundMillis(seconds) as real;
      if seconds >= 0.0 then seconds * 1000.0 - 0.5 < ms <= seconds * 1000.0 + 0.5
      else seconds * 1000.0 - 0.5 <= ms < seconds * 1000.0 + 0.5
  {
  }

  lemma RoundMillisMonotone(a: real, b: real)
    requires a <= b
    ensures RoundMillis(a) <= RoundMillis(b)
  {
  }

  // What the joining produces is what the padding expects.
  lemma RoundedIsSorted(s: seq<Speech>)
    requires Sorted(s)
    ensures SpeechPadding.SortedSegments(Rounded(s))
  {
    forall i | 0 <= i < |s| ensures RoundMillis(s[i].start) <= RoundMillis(s[i].end) {
      RoundMillisMonotone(s[i].start, s[i].end);
    }
    forall i, j | 0 <= i < j < |s| ensures RoundMillis(s[i].end) <= RoundMillis(s[j].start) {
      RoundMillisMonotone(s[i].end, s[j].start);
    }
  }
}
