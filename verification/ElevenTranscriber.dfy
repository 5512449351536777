/**
 * Sending fragments to speech recognition in parts, and the theorem that spans the
 * whole chain: a restored word points at exactly the audio that was sent for it.
 */
module ElevenTranscriber {
  import opened Wrappers
  import opened AudioPieces
  import opened SpeechPadding
  import opened Packing
  import opened VadSegment
  import opened VadRestore
  import opened Partition
  import opened Constants
  import LowMemVad

  // Recognition of a stitched buffer: None when all attempts failed.
  type SpeechToText = seq<byte> -> Option<seq<Word>>

  const SAMPLE_RATE := SAMPLE_RATE_KHZ * 1000
  const MIN_SECONDS := 2

  datatype Error =
    | TooLong | BadSize | DetectionFailed | OddAudioLength | NoFragments | SamplingFailed | LanguageIdFailed | NotKazakh
    | NoContent | PartitionFailed | RequestFailed

  ghost function Lens(groups: seq<seq<Piece>>): seq<int> {
    seq(|groups|, i requires 0 <= i < |groups| => Frames(groups[i]))
  }

  // The groups of fragments that make up the parts.
  ghost function PartGroups(groups: seq<seq<Piece>>): seq<seq<seq<Piece>>> {
    Parts(groups, Lens(groups), Target(Frames(Flatten(groups))))
  }

  // The recognised and restored words, part by part.
  ghost function PartWords(pcm: seq<byte>, parts: seq<seq<Piece>>, stt: SpeechToText): seq<seq<Word>>
    requires forall p :: 0 <= p < |parts| ==> AllInside(pcm, parts[p]) && stt(Audio(pcm, parts[p])).Some?
  {
    seq(|parts|, p requires 0 <= p < |parts| => Restored(RangesOf(parts[p], 0), stt(Audio(pcm, parts[p])).value))
  }

  ghost function FlattenEach<T>(parts: seq<seq<seq<T>>>): seq<seq<T>> {
    seq(|parts|, p requires 0 <= p < |parts| => Flatten(parts[p]))
  }

  lemma {:induction false} FlattenTwice<T>(parts: seq<seq<seq<T>>>)
    ensures Flatten(FlattenEach(parts)) == Flatten(Flatten(parts))
  {
    if parts != [] {
      FlattenTwice(parts[1..]);
      assert FlattenEach(parts) == [Flatten(parts[0])] + FlattenEach(parts[1..]);
      FlattenConcat(parts[0], Flatten(parts[1..]));
    }
  }

  // ---- Joining and stitching a part ----

  lemma {:induction false} HeldInside(fragments: seq<Fragment>, pcm: seq<byte>, groups: seq<seq<Piece>>, i: nat)
    requires AllHold(fragments, pcm, groups) && i <= |fragments|
    ensures AllInside(pcm, Flatten(groups[..i]))
  {
    if i == 0 {
      assert groups[..0] == [];
    } else {
      HeldInside(fragments, pcm, groups, i - 1);
      assert groups[..i] == groups[..i - 1] + [groups[i - 1]];
      FlattenSnoc(groups[..i - 1], groups[i - 1]);
      assert fragments[i - 1].Holds(pcm, groups[i - 1]);
    }
  }

  // Audio, ranges and length of one more group.
  lemma LayoutSnoc(pcm: seq<byte>, groups: seq<seq<Piece>>, i: nat)
    requires i < |groups| && AllInside(pcm, Flatten(groups[..i])) && AllInside(pcm, groups[i])
    ensures AllInside(pcm, Flatten(groups[..i + 1]))
    ensures Flatten(groups[..i + 1]) == Flatten(groups[..i]) + groups[i]
    ensures Audio(pcm, Flatten(groups[..i + 1])) == Audio(pcm, Flatten(groups[..i])) + Audio(pcm, groups[i])
    ensures RangesOf(Flatten(groups[..i + 1]), 0)
         == RangesOf(Flatten(groups[..i]), 0) + RangesOf(groups[i], Frames(Flatten(groups[..i])))
    ensures Frames(Flatten(groups[..i + 1])) == Frames(Flatten(groups[..i])) + Frames(groups[i])
  {
    hide Audio, Flatten, Frames, RangesOf;
    assert groups[..i + 1] == groups[..i] + [groups[i]];
    FlattenSnoc(groups[..i], groups[i]);
    LayoutAudio(pcm, Flatten(groups[..i]), groups[i]);
    LayoutRanges(Flatten(groups[..i]), groups[i], 0);
  }

  lemma {:induction false} HeldAudio(fragments: seq<Fragment>, pcm: seq<byte>, groups: seq<seq<Piece>>, i: nat)
    requires AllHold(fragments, pcm, groups) && i < |fragments|
    ensures AllInside(pcm, Flatten(groups[..i])) && AllInside(pcm, Flatten(groups[..i + 1]))
    ensures Flatten(groups[..i + 1]) == Flatten(groups[..i]) + groups[i]
    ensures Audio(pcm, Flatten(groups[..i + 1])) == Audio(pcm, Flatten(groups[..i])) + fragments[i].Content()
    ensures RangesOf(Flatten(groups[..i + 1]), 0)
         == RangesOf(Flatten(groups[..i]), 0) + RangesOf(groups[i], Frames(Flatten(groups[..i])))
    ensures Frames(Flatten(groups[..i + 1])) == Frames(Flatten(groups[..i])) + Frames(groups[i])
    ensures fragments[i].contentLen / BYTES_PER_FRAME == Frames(groups[i]) >= 0
  {
    hide Audio, Flatten, Frames, RangesOf;
    HeldInside(fragments, pcm, groups, i);
    LayoutSnoc(pcm, groups, i);
    AudioLength(pcm, groups[i]);
  }

  lemma {:induction false} RebaseRanges(pieces: seq<Piece>, offset: int, shift: int, k: nat)
    requires k < |pieces|
    ensures var r, s := RangesOf(pieces, offset)[k], RangesOf(pieces, offset + shift)[k];
      s == SegmentRange(r.realStart, r.realEnd, shift + r.copyStart)
  {
    if k > 0 {
      RebaseRanges(pieces[1..], offset + pieces[0].Duration(), shift, k - 1);
    }
  }

  method AppendRebased(result: seq<SegmentRange>, f: Fragment, offset: int, ghost g: seq<Piece>)
    returns (extended: seq<SegmentRange>)
    requires f.Valid() && f.Ranges() == RangesOf(g, 0)
    ensures extended == result + RangesOf(g, offset)
  {
    extended := result;
    for j := 0 to f.rangesLen
      invariant extended == result + RangesOf(g, offset)[..j]
    {
      var r := f.ranges[j];
      assert r == f.Ranges()[j];
      RebaseRanges(g, 0, offset, j);
      extended := extended + [SegmentRange(r.realStart, r.realEnd, offset + r.copyStart)];
    }
    assert f.rangesLen == |f.Ranges()|;
  }

  method JoinRanges(fragments: seq<Fragment>, ghost pcm: seq<byte>, ghost groups: seq<seq<Piece>>)
    returns (result: seq<SegmentRange>)
    requires AllHold(fragments, pcm, groups)
    ensures result == RangesOf(Flatten(groups), 0)
  {
    result := [];
    var offset := 0;
    for i := 0 to |fragments|
      invariant AllHold(fragments, pcm, groups)
      invariant result == RangesOf(Flatten(groups[..i]), 0) && offset == Frames(Flatten(groups[..i]))
    {
      HeldAudio(fragments, pcm, groups, i);
      result := AppendRebased(result, fragments[i], offset, groups[i]);
      offset := offset + fragments[i].contentLen / BYTES_PER_FRAME;
    }
    assert groups[..|fragments|] == groups;
  }

  method Stitch(fragments: seq<Fragment>, ghost pcm: seq<byte>, ghost groups: seq<seq<Piece>>)
    returns (result: Option<seq<byte>>)
    requires AllHold(fragments, pcm, groups)
    ensures result.None? <==> fragments == []
    ensures result.Some? ==> AllInside(pcm, Flatten(groups)) && result.value == Audio(pcm, Flatten(groups))
  {
    if |fragments| == 0 {
      return None;
    }
    var stitched := [];
    for i := 0 to |fragments|
      invariant AllInside(pcm, Flatten(groups[..i])) && stitched == Audio(pcm, Flatten(groups[..i]))
    {
      HeldAudio(fragments, pcm, groups, i);
      stitched := stitched + fragments[i].content[..fragments[i].contentLen];
    }
    assert groups[..|fragments|] == groups;
    return Some(stitched);
  }

  // ---- Partitioning ----

  ghost predicate LensOf(fragments: seq<Fragment>, lens: seq<int>)
    reads fragments
  {
    && |lens| == |fragments|
    && forall i :: 0 <= i < |fragments| ==> fragments[i].contentLen / BYTES_PER_FRAME == lens[i]
  }

  // The part that begins at `from` has i - from fragments so far, holding `frames`.
  ghost predicate PartOpen(lens: seq<int>, from: nat, i: nat, frames: int, target: int)
    requires from <= i < |lens|
  {
    PartCount(lens[from..], 0, target) == i - from + PartCount(lens[i..], frames, target)
  }

  lemma {:induction false} PartStep(lens: seq<int>, from: nat, i: nat, frames: int, target: int)
    requires from <= i < |lens| && PartOpen(lens, from, i, frames, target)
    ensures if frames + lens[i] >= target || i + 1 == |lens|
      then PartCount(lens[from..], 0, target) == i + 1 - from
      else PartOpen(lens, from, i + 1, frames + lens[i], target)
  {
    assert lens[i..][1..] == lens[i + 1..];
  }

  lemma {:induction false} PartTaken<T>(
    items: seq<T>, lens: seq<int>, from: nat, end: nat, target: int, done: seq<seq<T>>)
    requires |items| == |lens| && from < end <= |items|
    requires PartCount(lens[from..], 0, target) == end - from
    ensures done + Parts(items[from..], lens[from..], target)
         == (done + [items[from..end]]) + Parts(items[end..], lens[end..], target)
  {
    assert items[from..][..end - from] == items[from..end];
    assert items[from..][end - from..] == items[end..] && lens[from..][end - from..] == lens[end..];
  }

  lemma {:induction false} NoMoreParts<T>(items: seq<T>, lens: seq<int>, target: int)
    requires |items| == |lens|
    ensures Parts(items[|items|..], lens[|lens|..], target) == []
    ensures items[0..] == items && lens[0..] == lens
  {
  }

  method PartitionFragments(fragments: seq<Fragment>, targetFrames: int, ghost lens: seq<int>)
    returns (parts: Option<seq<seq<Fragment>>>)
    requires LensOf(fragments, lens)
    ensures parts.None? <==> fragments == [] || targetFrames <= 0
    ensures parts.Some? ==> parts.value == Parts(fragments, lens, targetFrames)
  {
    hide PartCount, Parts;
    var n := |fragments|;
    if n == 0 || targetFrames <= 0 {
      return None;
    }
    var result: seq<seq<Fragment>> := [];
    var start, curFrames := -1, 0;
    ghost var from := 0;
    for i := 0 to n
      invariant 0 <= from <= i && from == (if start == -1 then i else start) && -1 <= start < n
      invariant start == -1 ==> curFrames == 0
      invariant start != -1 ==> i < n && PartOpen(lens, from, i, curFrames, targetFrames)
      invariant Parts(fragments, lens, targetFrames)
             == result + Parts(fragments[from..], lens[from..], targetFrames)
    {
      assert PartOpen(lens, from, i, curFrames, targetFrames);
      PartStep(lens, from, i, curFrames, targetFrames);
      if start == -1 {
        start := i;
        curFrames := fragments[i].contentLen / BYTES_PER_FRAME;
      } else {
        curFrames := curFrames + fragments[i].contentLen / BYTES_PER_FRAME;
      }
      if curFrames >= targetFrames || i + 1 == n {
        PartTaken(fragments, lens, from, i + 1, targetFrames, result);
        result := result + [fragments[start..i + 1]];
        from := i + 1;
        start := -1;
        curFrames := 0;
      }
    }
    NoMoreParts(fragments, lens, targetFrames);
    return Some(result);
  }

  lemma {:induction false} PartsHold(
    fragments: seq<Fragment>, pcm: seq<byte>, groups: seq<seq<Piece>>, lens: seq<int>, target: int)
    requires AllHold(fragments, pcm, groups) && |lens| == |fragments|
    ensures |Parts(fragments, lens, target)| == |Parts(groups, lens, target)|
    ensures forall p :: 0 <= p < |Parts(fragments, lens, target)| ==>
      Parts(fragments, lens, target)[p] != []
      && (forall f :: f in Parts(fragments, lens, target)[p] ==> f in fragments)
      && AllHold(Parts(fragments, lens, target)[p], pcm, Parts(groups, lens, target)[p])
  {
    if fragments != [] {
      var n := PartCount(lens, 0, target);
      PartsHold(fragments[n..], pcm, groups[n..], lens[n..], target);
    }
  }

  method PartitionByTarget(fragments: seq<Fragment>, ghost pcm: seq<byte>, ghost groups: seq<seq<Piece>>)
    returns (result: Result<seq<seq<Fragment>>, Error>)
    requires AllHold(fragments, pcm, groups)
    ensures result.Err? <==> Frames(Flatten(groups)) == 0
    ensures result.Ok? ==> |result.value| == |PartGroups(groups)|
    ensures result.Ok? ==> forall p :: 0 <= p < |result.value| ==>
      result.value[p] != [] && AllHold(result.value[p], pcm, PartGroups(groups)[p])
  {
    var totalFrames := 0;
    for i := 0 to |fragments|
      invariant totalFrames == Frames(Flatten(groups[..i])) >= 0
    {
      HeldAudio(fragments, pcm, groups, i);
      totalFrames := totalFrames + fragments[i].contentLen / BYTES_PER_FRAME;
    }
    assert groups[..|fragments|] == groups;
    if totalFrames == 0 {
      return Err(NoContent);
    }
    var targetFrames := if PART_MIN_FRAMES >= totalFrames / PARTS_MAX then PART_MIN_FRAMES else totalFrames / PARTS_MAX;
    assert LensOf(fragments, Lens(groups)) by {
      forall i | 0 <= i < |fragments| ensures fragments[i].contentLen / BYTES_PER_FRAME == Frames(groups[i]) {
        HeldAudio(fragments, pcm, groups, i);
      }
    }
    var parts := PartitionFragments(fragments, targetFrames, Lens(groups));
    if parts.None? {
      return Err(PartitionFailed);
    }
    PartsHold(fragments, pcm, groups, Lens(groups), targetFrames);
    return Ok(parts.value);
  }

  // ---- Recognition of all parts ----

  method ConcatWords(parts: seq<seq<Word>>) returns (words: seq<Word>)
    ensures words == Flatten(parts)
  {
    words := [];
    for i := 0 to |parts|
      invariant Flatten(parts) == words + Flatten(parts[i..])
    {
      assert parts[i..][1..] == parts[i + 1..];
      if |parts[i]| == 0 {
        continue;
      }
      words := words + parts[i];
    }
  }

  ghost predicate AllRecognised(pcm: seq<byte>, parts: seq<seq<Piece>>, stt: SpeechToText) {
    forall p :: 0 <= p < |parts| ==> AllInside(pcm, parts[p]) && stt(Audio(pcm, parts[p])).Some?
  }

  method RequestPart(fragments: seq<Fragment>, stt: SpeechToText, ghost pcm: seq<byte>, ghost groups: seq<seq<Piece>>)
    returns (result: Option<seq<Word>>)
    requires AllHold(fragments, pcm, groups) && fragments != []
    ensures var part := Flatten(groups);
      AllInside(pcm, part)
      && result == match stt(Audio(pcm, part))
                   case None => None
                   case Some(words) => Some(Restored(RangesOf(part, 0), words))
  {
    var input := Stitch(fragments, pcm, groups);
    var ranges := JoinRanges(fragments, pcm, groups);
    var recognised := stt(input.value);
    if recognised.None? {
      return None;
    }
    var restoredWords := RestoreWordTimestamps(ranges, recognised.value);
    return Some(restoredWords);
  }

  // The service runs the parts concurrently; each one fills its own slot of the results.
  method RequestParts(
    partitions: seq<seq<Fragment>>, stt: SpeechToText, ghost pcm: seq<byte>, ghost groups: seq<seq<seq<Piece>>>)
    returns (results: Option<seq<seq<Word>>>)
    requires |partitions| == |groups|
    requires forall p :: 0 <= p < |partitions| ==> partitions[p] != [] && AllHold(partitions[p], pcm, groups[p])
    ensures var parts := FlattenEach(groups);
      if AllRecognised(pcm, parts, stt) then results == Some(PartWords(pcm, parts, stt)) else results == None
  {
    hide Flatten, Audio, RangesOf, Restored, Frames;
    ghost var parts := FlattenEach(groups);
    var slots: seq<seq<Word>> := [];
    for i := 0 to |partitions|
      invariant forall p :: 0 <= p < |partitions| ==> AllHold(partitions[p], pcm, groups[p])
      invariant |slots| == i && AllRecognised(pcm, parts[..i], stt)
      invariant forall p :: 0 <= p < i ==> slots[p] == Restored(RangesOf(parts[p], 0), stt(Audio(pcm, parts[p])).value)
    {
      assert parts[i] == Flatten(groups[i]);
      var restoredWords := RequestPart(partitions[i], stt, pcm, groups[i]);
      if restoredWords.None? {
        return None;
      }
      slots := slots + [restoredWords.value];
    }
    assert parts[..|partitions|] == parts;
    assert slots == PartWords(pcm, parts, stt);
    return Some(slots);
  }

  method ParallelRequest(
    fragments: seq<Fragment>, stt: SpeechToText, ghost pcm: seq<byte>, ghost groups: seq<seq<Piece>>)
    returns (result: Result<seq<Word>, Error>)
    requires AllHold(fragments, pcm, groups)
    ensures var parts := FlattenEach(PartGroups(groups));
      if Frames(Flatten(groups)) == 0 then result == Err(NoContent)
      else if AllRecognised(pcm, parts, stt) then result == Ok(Flatten(PartWords(pcm, parts, stt)))
      else result == Err(RequestFailed)
  {
    var partitions := PartitionByTarget(fragments, pcm, groups);
    if partitions.Err? {
      return Err(NoContent);
    }
    var results := RequestParts(partitions.value, stt, pcm, PartGroups(groups));
    if results.None? {
      return Err(RequestFailed);
    }
    var words := ConcatWords(results.value);
    return Ok(words);
  }

  // ---- The whole chain ----

  // Every frame between a restored word's times is the frame the recogniser heard at the word's own time.
  ghost predicate PointsAtSentAudio(pcm: seq<byte>, part: seq<Piece>, w: Word, restored: Word, later: seq<Word>)
    requires part != [] && AllInside(pcm, part)
  {
    var r := HomeRange(part, w);
    && Faithful(r, w, restored, later)
    && |Audio(pcm, part)| == Frames(part) * BYTES_PER_FRAME
    && 0 <= r.realStart && r.realEnd * BYTES_PER_FRAME <= |pcm|
    && SentFrames(pcm, part, Start(restored), Start(restored) + 1, Start(w) - Start(restored))
    && SentFrames(pcm, part, Start(restored), (restored.endMs as int) * SAMPLE_RATE_KHZ, Start(w) - Start(restored))
  }

  ghost predicate SentFrames(pcm: seq<byte>, part: seq<Piece>, from: int, end: int, shift: int)
    requires AllInside(pcm, part)
  {
    forall f :: from <= f < end ==> SentFrame(pcm, part, f, shift)
  }

  // Recording frame f is frame f + shift of the stitched part.
  ghost predicate SentFrame(pcm: seq<byte>, part: seq<Piece>, f: int, shift: int)
    requires AllInside(pcm, part)
  {
    && 0 <= f && (f + 1) * BYTES_PER_FRAME <= |pcm|
    && 0 <= f + shift && (f + shift + 1) * BYTES_PER_FRAME <= |Audio(pcm, part)|
    && Frame(pcm, f) == Frame(Audio(pcm, part), f + shift)
  }

  lemma {:induction false} FrameSent(pcm: seq<byte>, part: seq<Piece>, k: nat, r: SegmentRange, f: int)
    requires AllInside(pcm, part) && k < |part| && r == RangesOf(part, 0)[k]
    requires r.realStart <= f < r.realEnd
    ensures SentFrame(pcm, part, f, r.copyStart - r.realStart)
  {
    hide Audio, RangesOf, Frames;
    FrameFaithful(pcm, part, k, f + (r.copyStart - r.realStart));
  }

  lemma {:induction false} RangeSent(
    pcm: seq<byte>, part: seq<Piece>, k: nat, r: SegmentRange, from: int, end: int, shift: int)
    requires AllInside(pcm, part) && k < |part| && r == RangesOf(part, 0)[k] && shift == r.copyStart - r.realStart
    requires r.realStart <= from && end <= r.realEnd
    ensures SentFrames(pcm, part, from, end, shift)
  {
    forall f | from <= f < end ensures SentFrame(pcm, part, f, shift) {
      FrameSent(pcm, part, k, r, f);
    }
  }

  lemma WordPointsAtSentAudio(pcm: seq<byte>, part: seq<Piece>, w: Word, restored: Word, later: seq<Word>)
    requires part != [] && AllInside(pcm, part)
    requires Faithful(HomeRange(part, w), w, restored, later)
    ensures PointsAtSentAudio(pcm, part, w, restored, later)
  {
    hide Audio, RangesOf, Frames;
    var k := Home(part, Start(w));
    var r, shift := HomeRange(part, w), Start(w) - Start(restored);
    RangeSent(pcm, part, k, r, Start(restored), Start(restored) + 1, shift);
    RangeSent(pcm, part, k, r, Start(restored), (restored.endMs as int) * SAMPLE_RATE_KHZ, shift);
    RangesTile(part, 0, k);
    AudioLength(pcm, part);
  }

  // A part is a consecutive run of the pieces, so it inherits their order and alignment.
  lemma PartOfPieces(parts: seq<seq<Piece>>, p: nat) returns (from: nat)
    requires p < |parts|
    ensures from + |parts[p]| <= |Flatten(parts)| && parts[p] == Flatten(parts)[from..from + |parts[p]|]
    ensures from == |Flatten(parts[..p])|
  {
    from := |Flatten(parts[..p])|;
    assert parts == parts[..p] + parts[p..] && parts[p..][0] == parts[p];
    FlattenConcat(parts[..p], parts[p..]);
    assert Flatten(parts) == Flatten(parts[..p]) + (parts[p] + Flatten(parts[p..][1..]));
  }

  lemma {:induction false} PartInherits(pcm: seq<byte>, parts: seq<seq<Piece>>, p: nat)
    requires p < |parts| && parts[p] != []
    requires Ascending(Flatten(parts), 0) && WholeMillis(Flatten(parts)) && AllInside(pcm, Flatten(parts))
    requires |pcm| < WORD_LIMIT * BYTES_PER_FRAME
    ensures PartPieces(parts[p]) && AllInside(pcm, parts[p])
  {
    hide Flatten;
    var from := PartOfPieces(parts, p);
    var all := Flatten(parts);
    assert forall k :: 0 <= k < |parts[p]| ==> parts[p][k] == all[from + k];
  }

  lemma {:induction false} PartsInOrder(parts: seq<seq<Piece>>, p: nat, q: nat, j: nat, k: nat)
    requires p < q < |parts| && j < |parts[p]| && k < |parts[q]|
    requires Ascending(Flatten(parts), 0)
    ensures parts[p][j].realEnd <= parts[q][k].realStart
  {
    var a := PartOfPieces(parts, p);
    var b := PartOfPieces(parts, q);
    assert parts[..q] == parts[..p] + ([parts[p]] + parts[p + 1..q]);
    FlattenConcat(parts[..p], [parts[p]] + parts[p + 1..q]);
    assert ([parts[p]] + parts[p + 1..q])[1..] == parts[p + 1..q];
    assert parts[p][j] == Flatten(parts)[a + j] && parts[q][k] == Flatten(parts)[b + k];
  }

  lemma {:induction false} FlattenSorted(lists: seq<seq<Word>>)
    requires forall p :: 0 <= p < |lists| ==> SortedByStart(lists[p])
    requires forall p, q, i, j :: 0 <= p < q < |lists| && 0 <= i < |lists[p]| && 0 <= j < |lists[q]| ==>
      lists[p][i].startMs <= lists[q][j].startMs
    ensures SortedByStart(Flatten(lists))
  {
    if lists != [] {
      FlattenSorted(lists[1..]);
      var rest := Flatten(lists[1..]);
      forall i, j | 0 <= i < |lists[0]| && 0 <= j < |rest| ensures lists[0][i].startMs <= rest[j].startMs {
        var q, k := MemberOfFlatten(lists[1..], j);
        assert lists[0 + 1 + q] == lists[1..][q];
      }
    }
  }

  lemma {:induction false} MemberOfFlatten<T>(lists: seq<seq<T>>, j: nat) returns (q: nat, k: nat)
    requires j < |Flatten(lists)|
    ensures q < |lists| && k < |lists[q]| && Flatten(lists)[j] == lists[q][k]
  {
    if j < |lists[0]| {
      q, k := 0, j;
    } else {
      q, k := MemberOfFlatten(lists[1..], j - |lists[0]|);
      q := q + 1;
    }
  }

  // For any recognition result, one part: the words starting inside come back pointing at their audio.
  lemma {:induction false} PartRoundTrip(pcm: seq<byte>, part: seq<Piece>, words: seq<Word>)
    requires PartPieces(part) && AllInside(pcm, part) && PlausibleWords(words)
    ensures var restored, kept := Restored(RangesOf(part, 0), words), StartingInside(words, Frames(part));
      |restored| == |kept| && SortedByStart(restored)
      && (forall i :: 0 <= i < |kept| ==> PointsAtSentAudio(pcm, part, kept[i], restored[i], restored[i + 1..]))
  {
    RestoreIsFaithful(part, words);
    StartingInsideIsPrefix(words, Frames(part));
    var restored, kept := Restored(RangesOf(part, 0), words), StartingInside(words, Frames(part));
    forall i | 0 <= i < |kept| ensures PointsAtSentAudio(pcm, part, kept[i], restored[i], restored[i + 1..]) {
      assert kept[i] == words[i];
      WordPointsAtSentAudio(pcm, part, kept[i], restored[i], restored[i + 1..]);
    }
  }

  lemma {:induction false} CrossPartOrder(
    pcm: seq<byte>, parts: seq<seq<Piece>>, p: nat, q: nat, v: Word, w: Word, a: Word, b: Word,
    laterA: seq<Word>, laterB: seq<Word>)
    requires p < q < |parts| && parts[p] != [] && parts[q] != [] && Ascending(Flatten(parts), 0)
    requires AllInside(pcm, parts[p]) && AllInside(pcm, parts[q])
    requires PointsAtSentAudio(pcm, parts[p], v, a, laterA) && PointsAtSentAudio(pcm, parts[q], w, b, laterB)
    ensures a.startMs <= b.startMs
    ensures (a.endMs as int) * SAMPLE_RATE_KHZ <= Start(b)
  {
    var j, k := Home(parts[p], Start(v)), Home(parts[q], Start(w));
    RangesTile(parts[p], 0, j);
    RangesTile(parts[q], 0, k);
    PartsInOrder(parts, p, q, j, k);
  }

  // The pieces of each part that is sent.
  ghost function PartsOf(pcm: seq<byte>, segments: seq<Segment>, padMillis: int, params: Params): seq<seq<Piece>> {
    FlattenEach(PartGroups(Groups(segments, |pcm| / BYTES_PER_FRAME, padMillis, params)))
  }

  // Sorted speech in a recording of whole frames, every part recognised with sorted words of sane times.
  ghost predicate RecognisedPlausibly(
    pcm: seq<byte>, segments: seq<Segment>, padMillis: int, params: Params, stt: SpeechToText)
  {
    && |pcm| % BYTES_PER_FRAME == 0 && |pcm| < WORD_LIMIT * BYTES_PER_FRAME
    && SortedSegments(segments) && padMillis >= 0
    && var parts := PartsOf(pcm, segments, padMillis, params);
       AllRecognised(pcm, parts, stt)
       && forall p :: 0 <= p < |parts| ==> PlausibleWords(stt(Audio(pcm, parts[p])).value)
  }

  // Padding, packing, partitioning, stitching, recognition, restoring and concatenation together.
  lemma {:induction false} TranscriptRoundTrip(
    pcm: seq<byte>, segments: seq<Segment>, padMillis: int, params: Params, stt: SpeechToText)
    requires RecognisedPlausibly(pcm, segments, padMillis, params, stt)
    ensures var parts := PartsOf(pcm, segments, padMillis, params);
      var words := PartWords(pcm, parts, stt);
      && Flatten(parts) == AllPieces(segments, |pcm| / BYTES_PER_FRAME, padMillis)
      && SortedByStart(Flatten(words))
      && (forall p :: 0 <= p < |parts| ==> parts[p] != [])
      && forall p :: 0 <= p < |parts| ==>
        var kept := StartingInside(stt(Audio(pcm, parts[p])).value, Frames(parts[p]));
        |words[p]| == |kept|
        && forall i :: 0 <= i < |kept| ==>
          PointsAtSentAudio(pcm, parts[p], kept[i], words[p][i], words[p][i + 1..])
  {
    var totalFrames := |pcm| / BYTES_PER_FRAME;
    PartsCoverPieces(segments, totalFrames, padMillis, params);
    PaddedRanges(segments, totalFrames, padMillis);
    TranscriptOfParts(pcm, PartsOf(pcm, segments, padMillis, params), stt);
  }

  // Parts made of non-empty groups are not empty.
  lemma PartHasPieces(pgs: seq<seq<seq<Piece>>>, p: nat)
    requires p < |pgs| && pgs[p] != []
    requires forall i :: 0 <= i < |Flatten(pgs)| ==> Flatten(pgs)[i] != []
    ensures Flatten(pgs[p]) != []
  {
    FlattenConcat(pgs[..p], pgs[p..]);
    assert pgs == pgs[..p] + pgs[p..];
    assert pgs[p][0] == Flatten(pgs[p..])[0] == Flatten(pgs)[|Flatten(pgs[..p])|];
  }

  lemma PartsCoverPieces(segments: seq<Segment>, totalFrames: nat, padMillis: int, params: Params)
    ensures var parts := FlattenEach(PartGroups(Groups(segments, totalFrames, padMillis, params)));
      Flatten(parts) == AllPieces(segments, totalFrames, padMillis)
      && forall p :: 0 <= p < |parts| ==> parts[p] != []
  {
    var groups := Groups(segments, totalFrames, padMillis, params);
    var pgs := PartGroups(groups);
    PackCutsExactly(AllPieces(segments, totalFrames, padMillis), params);
    PartsPartition(groups, Lens(groups), Target(Frames(Flatten(groups))));
    FlattenTwice(pgs);
    assert Flatten(pgs) == groups;
    hide Flatten, Groups, Parts, Frames;
    forall p | 0 <= p < |pgs| ensures Flatten(pgs[p]) != [] {
      PartHasPieces(pgs, p);
    }
  }

  lemma {:induction false} TranscriptOfParts(pcm: seq<byte>, parts: seq<seq<Piece>>, stt: SpeechToText)
    requires |pcm| < WORD_LIMIT * BYTES_PER_FRAME
    requires Ascending(Flatten(parts), 0) && WholeMillis(Flatten(parts)) && AllInside(pcm, Flatten(parts))
    requires forall p :: 0 <= p < |parts| ==> parts[p] != []
    requires AllRecognised(pcm, parts, stt)
    requires forall p :: 0 <= p < |parts| ==> PlausibleWords(stt(Audio(pcm, parts[p])).value)
    ensures var words := PartWords(pcm, parts, stt);
      && SortedByStart(Flatten(words))
      && forall p :: 0 <= p < |parts| ==>
        var kept := StartingInside(stt(Audio(pcm, parts[p])).value, Frames(parts[p]));
        |words[p]| == |kept|
        && forall i :: 0 <= i < |kept| ==>
          PointsAtSentAudio(pcm, parts[p], kept[i], words[p][i], words[p][i + 1..])
  {
    var words := PartWords(pcm, parts, stt);
    forall p | 0 <= p < |parts|
      ensures SortedByStart(words[p])
      ensures var kept := StartingInside(stt(Audio(pcm, parts[p])).value, Frames(parts[p]));
        |words[p]| == |kept|
        && forall i :: 0 <= i < |kept| ==>
          PointsAtSentAudio(pcm, parts[p], kept[i], words[p][i], words[p][i + 1..])
    {
      PartInherits(pcm, parts, p);
      PartRoundTrip(pcm, parts[p], stt(Audio(pcm, parts[p])).value);
    }
    forall p, q, i, j | 0 <= p < q < |words| && 0 <= i < |words[p]| && 0 <= j < |words[q]|
      ensures words[p][i].startMs <= words[q][j].startMs
    {
      var v := StartingInside(stt(Audio(pcm, parts[p])).value, Frames(parts[p]));
      var w := StartingInside(stt(Audio(pcm, parts[q])).value, Frames(parts[q]));
      assert PointsAtSentAudio(pcm, parts[p], v[i], words[p][i], words[p][i + 1..]);
      assert PointsAtSentAudio(pcm, parts[q], w[j], words[q][j], words[q][j + 1..]);
      CrossPartOrder(pcm, parts, p, q, v[i], w[j], words[p][i], words[q][j], words[p][i + 1..], words[q][j + 1..]);
    }
    FlattenSorted(words);
  }

  const TRANSCRIBE_PARAMS := MillisParams(5000, 300_000)
  const PAD_MILLIS := 100

  ghost function SentParts(pcm: seq<byte>, segments: seq<Segment>): seq<seq<Piece>> {
    PartsOf(pcm, segments, PAD_MILLIS, TRANSCRIBE_PARAMS)
  }

  // The detector's speech in whole milliseconds.
  function Detection(pcm: seq<byte>, detect: LowMemVad.Detector): Result<seq<Segment>, LowMemVad.Error> {
    match LowMemVad.Joined([], 0, |pcm| / BYTES_PER_FRAME, detect)
    case Err(e) => Err(e)
    case Ok(speech) => Ok(LowMemVad.Rounded(speech))
  }

  // A detector that finds sorted speech inside each chunk gives sorted segments for the recording.
  lemma DetectionIsSorted(pcm: seq<byte>, detect: LowMemVad.Detector)
    requires LowMemVad.GoodDetector(detect, 0, |pcm| / BYTES_PER_FRAME)
    ensures Detection(pcm, detect).Ok? && SortedSegments(Detection(pcm, detect).value)
  {
    LowMemVad.LowMemoryVad(|pcm| / BYTES_PER_FRAME, detect);
    LowMemVad.RoundedIsSorted(LowMemVad.Joined([], 0, |pcm| / BYTES_PER_FRAME, detect).value);
  }

  // ---- Language identification ----

  // Chooses samples from the audio of the fragments; None when there is too little of it.
  type Sampler<S> = seq<seq<byte>> -> Option<seq<S>>

  // Whether a sample is Kazakh; None when the classifier fails.
  type Classifier<!S> = S -> Option<bool>

  // How many samples are Kazakh, unless one cannot be classified.
  function KazakhCount<S>(samples: seq<S>, classify: Classifier<S>): Option<nat> {
    if samples == [] then Some(0)
    else
      var last := |samples| - 1;
      match KazakhCount(samples[..last], classify)
      case None => None
      case Some(n) =>
        (match classify(samples[last])
         case None => None
         case Some(kazakh) => Some(if kazakh then n + 1 else n))
  }

  lemma {:induction false} FailureStays<S>(samples: seq<S>, classify: Classifier<S>, i: nat)
    requires i <= |samples| && KazakhCount(samples[..i], classify).None?
    ensures KazakhCount(samples, classify).None?
    decreases |samples|
  {
    if i == |samples| {
      assert samples[..i] == samples;
    } else {
      assert samples[..|samples| - 1][..i] == samples[..i];
      FailureStays(samples[..|samples| - 1], classify, i);
    }
  }

  // Some sample is Kazakh and none fails: the count is positive.
  lemma {:induction false} KazakhCountMeans<S>(samples: seq<S>, classify: Classifier<S>)
    ensures KazakhCount(samples, classify).Some? <==> forall i :: 0 <= i < |samples| ==> classify(samples[i]).Some?
    ensures KazakhCount(samples, classify).Some? ==>
      (KazakhCount(samples, classify).value == 0
       <==> forall i :: 0 <= i < |samples| ==> classify(samples[i]) == Some(false))
  {
    if samples != [] {
      var last := |samples| - 1;
      KazakhCountMeans(samples[..last], classify);
      assert forall i :: 0 <= i < last ==> samples[..last][i] == samples[i];
    }
  }

  method CountKazakh<S>(samples: seq<S>, classify: Classifier<S>) returns (count: Option<nat>)
    ensures count == KazakhCount(samples, classify)
  {
    var kazakhCount: nat := 0;
    for i := 0 to |samples|
      invariant KazakhCount(samples[..i], classify) == Some(kazakhCount)
    {
      assert samples[..i + 1][..i] == samples[..i];
      var kazakh := classify(samples[i]);
      if kazakh.None? {
        FailureStays(samples, classify, i + 1);
        return None;
      }
      if kazakh.value {
        kazakhCount := kazakhCount + 1;
      }
    }
    assert samples[..|samples|] == samples;
    return Some(kazakhCount);
  }

  ghost function Contents(pcm: seq<byte>, groups: seq<seq<Piece>>): seq<seq<byte>>
    requires forall i :: 0 <= i < |groups| ==> AllInside(pcm, groups[i])
  {
    seq(|groups|, i requires 0 <= i < |groups| => Audio(pcm, groups[i]))
  }

  // What the samples say: how many are Kazakh, or why that is not known.
  function Identified<S>(contents: seq<seq<byte>>, sample: Sampler<S>, classify: Classifier<S>): Result<nat, Error> {
    match sample(contents)
    case None => Err(SamplingFailed)
    case Some(samples) =>
      (match KazakhCount(samples, classify)
       case None => Err(LanguageIdFailed)
       case Some(n) => Ok(n))
  }

  method IdentifyLanguage<S>(
    fragments: seq<Fragment>, sample: Sampler<S>, classify: Classifier<S>, ghost pcm: seq<byte>,
    ghost groups: seq<seq<Piece>>) returns (failure: Option<Error>)
    requires AllHold(fragments, pcm, groups)
    ensures failure == match Identified(Contents(pcm, groups), sample, classify)
                       case Err(e) => Some(e)
                       case Ok(n) => if n == 0 then Some(NotKazakh) else None
  {
    var contents: seq<seq<byte>> := [];
    for i := 0 to |fragments|
      invariant AllHold(fragments, pcm, groups)
      invariant contents == Contents(pcm, groups)[..i]
    {
      assert fragments[i].Holds(pcm, groups[i]);
      contents := contents + [fragments[i].content[..fragments[i].contentLen]];
    }
    assert contents == Contents(pcm, groups);
    var samples := sample(contents);
    if samples.None? {
      return Some(SamplingFailed);
    }
    var kazakhCount := CountKazakh(samples.value, classify);
    if kazakhCount.None? {
      return Some(LanguageIdFailed);
    }
    if kazakhCount.value == 0 {
      return Some(NotKazakh);
    }
    return None;
  }

  // ---- From the recording to the words ----

  predicate GoodSize(pcm: seq<byte>) {
    MIN_SECONDS * SAMPLE_RATE * BYTES_PER_FRAME <= |pcm| <= MAX_DURATION_SECS * SAMPLE_RATE * BYTES_PER_FRAME
  }

  // Two seconds to three hours at 32000 bytes a second.
  lemma GoodSizeInBytes(pcm: seq<byte>)
    ensures GoodSize(pcm) <==> 64_000 <= |pcm| <= 345_600_000
  {
  }

  // The fragments of the recording.
  ghost function SentGroups(pcm: seq<byte>, segments: seq<Segment>): seq<seq<Piece>> {
    Groups(segments, |pcm| / BYTES_PER_FRAME, PAD_MILLIS, TRANSCRIBE_PARAMS)
  }

  lemma SentGroupsInside(pcm: seq<byte>, segments: seq<Segment>, i: nat)
    requires SortedSegments(segments) && i < |SentGroups(pcm, segments)|
    ensures AllInside(pcm, SentGroups(pcm, segments)[i])
  {
    var groups := SentGroups(pcm, segments);
    var pieces := AllPieces(segments, |pcm| / BYTES_PER_FRAME, PAD_MILLIS);
    hide Groups, AllPieces;
    PackCutsExactly(pieces, TRANSCRIBE_PARAMS);
    PaddedRanges(segments, |pcm| / BYTES_PER_FRAME, PAD_MILLIS);
    var from := PartOfPieces(groups, i);
  }

  // What is known before anything is sent: whether there is content, and in which language.
  ghost function SentLanguage<S>(
    pcm: seq<byte>, segments: seq<Segment>, sample: Sampler<S>, classify: Classifier<S>): Result<nat, Error>
    requires SortedSegments(segments)
  {
    if |pcm| % BYTES_PER_FRAME != 0 then Err(OddAudioLength)
    else if Kept(segments, |pcm| / BYTES_PER_FRAME) == [] then Err(NoFragments)
    else
      assert forall i :: 0 <= i < |SentGroups(pcm, segments)| ==> AllInside(pcm, SentGroups(pcm, segments)[i]) by {
        forall i | 0 <= i < |SentGroups(pcm, segments)| ensures AllInside(pcm, SentGroups(pcm, segments)[i]) {
          SentGroupsInside(pcm, segments, i);
        }
      }
      Identified(Contents(pcm, SentGroups(pcm, segments)), sample, classify)
  }

  // From the recording to restored words, for any recogniser and any detector whose segments are in order.
  method Transcribe<S>(
    pcm: seq<byte>, durationSecs: int, detect: LowMemVad.Detector, sample: Sampler<S>, classify: Classifier<S>,
    stt: SpeechToText)
    returns (result: Result<seq<Word>, Error>)
    requires Detection(pcm, detect).Ok? ==> SortedSegments(Detection(pcm, detect).value)
    ensures durationSecs > MAX_DURATION_SECS ==> result == Err(TooLong)
    ensures durationSecs <= MAX_DURATION_SECS && !GoodSize(pcm) ==> result == Err(BadSize)
    ensures durationSecs <= MAX_DURATION_SECS && GoodSize(pcm) ==>
      match Detection(pcm, detect)
      case Err(_) => result == Err(DetectionFailed)
      case Ok(segments) => IsTranscription(pcm, segments, sample, classify, stt, result)
  {
    if durationSecs > MAX_DURATION_SECS {
      return Err(TooLong);
    }
    if |pcm| < MIN_SECONDS * SAMPLE_RATE * BYTES_PER_FRAME
       || |pcm| > MAX_DURATION_SECS * SAMPLE_RATE * BYTES_PER_FRAME {
      return Err(BadSize);
    }
    hide IsTranscription;
    var speech := LowMemVad.ApplyVadLowMem(|pcm| / BYTES_PER_FRAME, detect);
    if speech.Err? {
      return Err(DetectionFailed);
    }
    result := TranscribeSegments(pcm, LowMemVad.Rounded(speech.value), sample, classify, stt);
  }

  // No speech gives no words. Otherwise there are words exactly if there is content, some sample of
  // it is Kazakh and every part is recognised, and every failure has its reason.
  ghost predicate IsTranscription<S>(
    pcm: seq<byte>, segments: seq<Segment>, sample: Sampler<S>, classify: Classifier<S>, stt: SpeechToText,
    result: Result<seq<Word>, Error>)
    requires SortedSegments(segments)
  {
    if segments == [] then result == Ok([])
    else
      match SentLanguage(pcm, segments, sample, classify)
      case Err(e) => result == Err(e)
      case Ok(n) =>
        var parts := SentParts(pcm, segments);
        if n == 0 then result == Err(NotKazakh)
        else if AllRecognised(pcm, parts, stt) then result == Ok(Flatten(PartWords(pcm, parts, stt)))
        else result == Err(RequestFailed)
  }

  // Some stretch of speech of the recording is in range.
  ghost predicate HasSpeech(pcm: seq<byte>, segments: seq<Segment>) {
    exists i :: 0 <= i < |segments| && StartsInside(segments[i], |pcm|)
  }

  // It is not empty and starts before the recording ends; a millisecond takes 32 bytes.
  ghost predicate StartsInside(s: Segment, bytes: nat) { 0 <= s.startMs < s.endMs && s.startMs * 32 < bytes }

  lemma {:induction false} SpeechIsKept(segments: seq<Segment>, bytes: nat)
    requires bytes % BYTES_PER_FRAME == 0
    ensures Kept(segments, bytes / BYTES_PER_FRAME) == []
            <==> forall i :: 0 <= i < |segments| ==> !StartsInside(segments[i], bytes)
  {
    if segments != [] {
      SpeechIsKept(segments[1..], bytes);
      assert InRange(segments[0], bytes / BYTES_PER_FRAME) <==> StartsInside(segments[0], bytes);
      assert forall i :: 0 < i < |segments| ==> segments[i] == segments[1..][i - 1];
    }
  }

  // Every sample of the fragments' audio is classified.
  ghost predicate Classified<S>(samples: Option<seq<S>>, classify: Classifier<S>) {
    samples.Some? && forall i :: 0 <= i < |samples.value| ==> classify(samples.value[i]).Some?
  }

  ghost predicate SomeKazakh<S>(samples: seq<S>, classify: Classifier<S>) {
    exists i :: 0 <= i < |samples| && classify(samples[i]) == Some(true)
  }

  lemma IdentifiedMeans<S>(contents: seq<seq<byte>>, sample: Sampler<S>, classify: Classifier<S>)
    ensures var r, samples := Identified(contents, sample, classify), sample(contents);
      if samples.None? then r == Err(SamplingFailed)
      else if !Classified(samples, classify) then r == Err(LanguageIdFailed)
      else r.Ok? && (r.value == 0 <==> !SomeKazakh(samples.value, classify))
  {
    var samples := sample(contents);
    if samples.Some? {
      KazakhCountMeans(samples.value, classify);
      if Classified(samples, classify) && !SomeKazakh(samples.value, classify) {
        forall i | 0 <= i < |samples.value| ensures classify(samples.value[i]) == Some(false) {
          assert classify(samples.value[i]) != Some(true);
          assert classify(samples.value[i]).value == false;
        }
      }
    }
  }

  // Why there is no transcript, or that there is one; the reasons are looked for in this order.
  lemma WhyNoTranscript<S>(
    pcm: seq<byte>, segments: seq<Segment>, sample: Sampler<S>, classify: Classifier<S>, stt: SpeechToText,
    result: Result<seq<Word>, Error>)
    requires SortedSegments(segments) && segments != []
    requires IsTranscription(pcm, segments, sample, classify, stt, result)
    ensures if |pcm| % 2 != 0 then result == Err(OddAudioLength)
            else if !HasSpeech(pcm, segments) then result == Err(NoFragments)
            else
              && (forall i :: 0 <= i < |SentGroups(pcm, segments)| ==> AllInside(pcm, SentGroups(pcm, segments)[i]))
              && var samples := sample(Contents(pcm, SentGroups(pcm, segments)));
                 if samples.None? then result == Err(SamplingFailed)
                 else if !Classified(samples, classify) then result == Err(LanguageIdFailed)
                 else if !SomeKazakh(samples.value, classify) then result == Err(NotKazakh)
                 else if !AllRecognised(pcm, SentParts(pcm, segments), stt) then result == Err(RequestFailed)
                 else result == Ok(Flatten(PartWords(pcm, SentParts(pcm, segments), stt)))
  {
    if |pcm| % 2 == 0 {
      SpeechIsKept(segments, |pcm|);
    }
    hide Kept, Flatten, PartWords, SentParts, SentGroups, Contents, Classified, SomeKazakh, AllRecognised;
    forall i | 0 <= i < |SentGroups(pcm, segments)| ensures AllInside(pcm, SentGroups(pcm, segments)[i]) {
      SentGroupsInside(pcm, segments, i);
    }
    IdentifiedMeans(Contents(pcm, SentGroups(pcm, segments)), sample, classify);
    hide Identified;
  }

  method TranscribeSegments<S>(
    pcm: seq<byte>, segments: seq<Segment>, sample: Sampler<S>, classify: Classifier<S>, stt: SpeechToText)
    returns (result: Result<seq<Word>, Error>)
    requires SortedSegments(segments)
    ensures IsTranscription(pcm, segments, sample, classify, stt, result)
  {
    if |segments| == 0 {
      return Ok([]);
    }
    hide Kept, Flatten, Frames, PartGroups, PartWords, FlattenEach, Identified, Contents;
    ghost var groups := SentGroups(pcm, segments);
    var fragments := SegmentAudioByTimestampRanges(pcm, segments, PAD_MILLIS, 5000, 300_000);
    if fragments.Err? {
      return Err(OddAudioLength);
    }
    SomethingKept(pcm, segments);
    if |fragments.value| == 0 {
      return Err(NoFragments);
    }
    var failure := IdentifyLanguage(fragments.value, sample, classify, pcm, groups);
    if failure.Some? {
      return Err(failure.value);
    }
    result := ParallelRequest(fragments.value, stt, pcm, groups);
  }

  // There is content to send exactly when some segment is in range.
  lemma {:induction false} SomethingKept(pcm: seq<byte>, segments: seq<Segment>)
    requires SortedSegments(segments) && |pcm| % BYTES_PER_FRAME == 0
    ensures var totalFrames := |pcm| / BYTES_PER_FRAME;
      var groups := Groups(segments, totalFrames, PAD_MILLIS, TRANSCRIBE_PARAMS);
      (groups == [] <==> Kept(segments, totalFrames) == [])
      && (groups != [] ==> Frames(Flatten(groups)) > 0)
  {
    var totalFrames := |pcm| / BYTES_PER_FRAME;
    var pieces := AllPieces(segments, totalFrames, PAD_MILLIS);
    var groups := Groups(segments, totalFrames, PAD_MILLIS, TRANSCRIBE_PARAMS);
    hide AllPieces, Kept, Groups, Frames;
    PackCutsExactly(pieces, TRANSCRIBE_PARAMS);
    PaddedRanges(segments, totalFrames, PAD_MILLIS);
    PiecesOfKept(segments, 0, 0, totalFrames, PAD_MILLIS);
    assert segments[0..] == segments;
    AudioLength(pcm, pieces);
    assert groups != [] ==> groups[0] != [] && groups[0][0] == Flatten(groups)[0];
  }
}
