/**
 * Cutting detected speech out of the recording: a working fragment whose buffers
 * are truncated and reused, a collector that clones it into finished fragments,
 * and the main loop over the detected segments.
 */
module VadSegment {
  import opened Wrappers
  import opened AudioPieces
  import opened SpeechPadding
  import opened Packing

  // A fragment with growable buffers: the first contentLen bytes and rangesLen ranges are in use.
  class Fragment {
    var content: array<byte>
    var contentLen: nat
    var ranges: array<SegmentRange>
    var rangesLen: nat
    var realSpeechEnd: int

    ghost predicate Valid()
      reads this
    {
      contentLen <= content.Length && rangesLen <= ranges.Length
    }

    ghost function Content(): seq<byte>
      reads this, content
      requires Valid()
    {
      content[..contentLen]
    }

    ghost function Ranges(): seq<SegmentRange>
      reads this, ranges
      requires Valid()
    {
      ranges[..rangesLen]
    }

    // The fragment is exactly the audio of group g of the recording.
    ghost predicate Holds(pcm: seq<byte>, g: seq<Piece>)
      reads this, content, ranges
    {
      && Valid()
      && AllInside(pcm, g)
      && Content() == Audio(pcm, g)
      && Ranges() == RangesOf(g, 0)
      && (g != [] ==> realSpeechEnd == Last(g).speechEnd)
    }

    constructor ()
      ensures Valid() && Content() == [] && Ranges() == []
      ensures fresh(content) && fresh(ranges)
    {
      content := new byte[0];
      contentLen := 0;
      ranges := new SegmentRange[0];
      rangesLen := 0;
      realSpeechEnd := 0;
    }

    constructor CloneOf(f: Fragment)
      requires f.Valid()
      ensures Valid() && fresh(content) && fresh(ranges)
      ensures Content() == f.Content() && Ranges() == f.Ranges() && realSpeechEnd == f.realSpeechEnd
    {
      content := new byte[f.contentLen](
        i requires 0 <= i < f.contentLen && f.Valid() reads f, f.content => f.content[i]);
      contentLen := f.contentLen;
      ranges := new SegmentRange[f.rangesLen](
        i requires 0 <= i < f.rangesLen && f.Valid() reads f, f.ranges => f.ranges[i]);
      rangesLen := f.rangesLen;
      realSpeechEnd := f.realSpeechEnd;
    }

    method Reset()
      requires Valid()
      modifies this`contentLen, this`rangesLen
      ensures Valid() && Content() == [] && Ranges() == []
    {
      contentLen := 0;
      rangesLen := 0;
    }

    method LengthInFrames() returns (n: nat)
      requires Valid()
      ensures n == contentLen / BYTES_PER_FRAME
    {
      n := contentLen / BYTES_PER_FRAME;
    }

    // Appends in place while the capacity lasts; otherwise moves to a larger buffer.
    method AppendContent(bytes: seq<byte>)
      requires Valid()
      modifies this`content, this`contentLen, content
      ensures Valid() && Content() == old(Content()) + bytes
      ensures content == old(content) || fresh(content)
    {
      if contentLen + |bytes| > content.Length {
        var was, used := content, contentLen;
        content := new byte[2 * used + |bytes|];
        forall i | 0 <= i < used {
          content[i] := was[i];
        }
      }
      var base := contentLen;
      forall i | 0 <= i < |bytes| {
        content[base + i] := bytes[i];
      }
      contentLen := base + |bytes|;
    }

    method AppendRange(r: SegmentRange)
      requires Valid()
      modifies this`ranges, this`rangesLen, ranges
      ensures Valid() && Ranges() == old(Ranges()) + [r]
      ensures ranges == old(ranges) || fresh(ranges)
    {
      if rangesLen == ranges.Length {
        var was, used := ranges, rangesLen;
        ranges := new SegmentRange[2 * used + 1];
        forall i | 0 <= i < used {
          ranges[i] := was[i];
        }
      }
      ranges[rangesLen] := r;
      rangesLen := rangesLen + 1;
    }

    method AppendSegment(bytes: seq<byte>, realStart: int, speechEnd: int, realEnd: int)
      requires Valid()
      modifies this, content, ranges
      ensures Valid()
      ensures Content() == old(Content()) + bytes
      ensures Ranges() == old(Ranges()) + [SegmentRange(realStart, realEnd, old(contentLen) / BYTES_PER_FRAME)]
      ensures realSpeechEnd == speechEnd
      ensures content == old(content) || fresh(content)
      ensures ranges == old(ranges) || fresh(ranges)
    {
      var posInFrames := LengthInFrames();
      AppendContent(bytes);
      AppendRange(SegmentRange(realStart, realEnd, posInFrames));
      realSpeechEnd := speechEnd;
    }
  }

  lemma {:induction false} AppendPiece(pcm: seq<byte>, g: seq<Piece>, p: Piece)
    requires AllInside(pcm, g) && Inside(pcm, p)
    ensures AllInside(pcm, g + [p])
    ensures Audio(pcm, g + [p]) == Audio(pcm, g) + Bytes(pcm, p)
    ensures RangesOf(g + [p], 0)
         == RangesOf(g, 0) + [SegmentRange(p.realStart, p.realEnd, |Audio(pcm, g)| / BYTES_PER_FRAME)]
    ensures Last(g + [p]) == p
  {
    LayoutAudio(pcm, g, [p]);
    LayoutRanges(g, [p], 0);
    AudioLength(pcm, g);
    assert [p][1..] == [];
    assert Audio(pcm, [p]) == Bytes(pcm, p);
  }

  class Collector {
    const params: Params
    var fragments: seq<Fragment>
    const current: Fragment
    ghost const pcm: seq<byte>
    ghost var packing: State  // what the fragments hold, group by group

    // A finished fragment shares no buffer with the working one.
    ghost predicate Apart(f: Fragment)
      reads f, current
    {
      f != current && f.content != current.content && f.ranges != current.ranges
    }

    ghost predicate Valid()
      reads this, current, current.content, current.ranges, fragments,
            (set f | f in fragments :: f.content), (set f | f in fragments :: f.ranges)
    {
      && current.Holds(pcm, packing.open)
      && |fragments| == |packing.done|
      && (forall i :: 0 <= i < |fragments| ==> Apart(fragments[i]) && fragments[i].Holds(pcm, packing.done[i]))
    }

    constructor (params: Params, ghost pcm: seq<byte>)
      ensures Valid() && packing == State([], []) && this.params == params && this.pcm == pcm
      ensures fresh(current) && fresh(current.content) && fresh(current.ranges) && fragments == []
    {
      this.params := params;
      this.pcm := pcm;
      fragments := [];
      current := new Fragment();
      packing := State([], []);
    }

    // Clones the working fragment into the finished ones and truncates it for reuse.
    method Finalize()
      requires Valid()
      modifies this, current
      ensures Valid() && packing == State(old(packing).done + [old(packing).open], [])
      ensures current.content == old(current.content) && current.ranges == old(current.ranges)
      ensures |fragments| == |old(fragments)| + 1 && fragments[..|old(fragments)|] == old(fragments)
      ensures fresh(fragments[|old(fragments)|])
    {
      var f := new Fragment.CloneOf(current);
      fragments := fragments + [f];
      current.Reset();
      packing := State(packing.done + [packing.open], []);
    }

    method FinalizeIfGap(nextSpeechStart: int, ghost p: Piece)
      requires Valid() && p.speechStart == nextSpeechStart
      modifies this, current
      ensures Valid() && packing == CloseBeforeGap(old(packing), p, params)
      ensures current.content == old(current.content) && current.ranges == old(current.ranges)
      ensures old(fragments) <= fragments
    {
      AudioLength(pcm, packing.open);
      var length := current.LengthInFrames();
      if length != 0 {
        var gap := nextSpeechStart - current.realSpeechEnd;
        if gap >= params.gapFrames {
          Finalize();
        }
      }
    }

    method FinalizeIfMaxFrames()
      requires Valid()
      modifies this, current
      ensures Valid() && packing == CloseIfFull(old(packing), params)
      ensures current.content == old(current.content) && current.ranges == old(current.ranges)
      ensures old(fragments) <= fragments
    {
      AudioLength(pcm, packing.open);
      var length := current.LengthInFrames();
      if length >= params.maxFrames {
        Finalize();
      }
    }

    method AppendSegment(
      bytes: seq<byte>, ghost p: Piece, speechStart: int, realStart: int, speechEnd: int, realEnd: int)
      requires Valid()
      requires p == Piece(speechStart, speechEnd, realStart, realEnd) && Inside(pcm, p) && bytes == Bytes(pcm, p)
      modifies this, current, current.content, current.ranges
      ensures Valid() && packing == Add(old(packing), p, params)
      ensures current.content == old(current.content) || fresh(current.content)
      ensures current.ranges == old(current.ranges) || fresh(current.ranges)
      ensures old(fragments) <= fragments
    {
      FinalizeIfGap(speechStart, p);
      Extend(bytes, p, realStart, speechEnd, realEnd);
      FinalizeIfMaxFrames();
    }

    method Extend(bytes: seq<byte>, ghost p: Piece, realStart: int, speechEnd: int, realEnd: int)
      requires Valid()
      requires p.realStart == realStart && p.realEnd == realEnd && p.speechEnd == speechEnd
      requires Inside(pcm, p) && bytes == Bytes(pcm, p)
      modifies this`packing, current, current.content, current.ranges
      ensures Valid() && packing == State(old(packing).done, old(packing).open + [p])
      ensures current.content == old(current.content) || fresh(current.content)
      ensures current.ranges == old(current.ranges) || fresh(current.ranges)
    {
      AppendPiece(pcm, packing.open, p);
      current.AppendSegment(bytes, realStart, speechEnd, realEnd);
      packing := State(packing.done, packing.open + [p]);
    }

    method FinalizeIfPresent()
      requires Valid()
      modifies this, current
      ensures Valid() && packing.open == [] && packing.done == Finish(old(packing))
      ensures old(fragments) <= fragments
    {
      AudioLength(pcm, packing.open);
      var length := current.LengthInFrames();
      if length == 0 {
        return;
      }
      Finalize();
    }
  }

  datatype Error = NotMultipleOf16Bits

  // The groups of pieces that the fragments of a recording hold.
  ghost function Groups(segments: seq<Segment>, totalFrames: nat, padMillis: int, params: Params): seq<seq<Piece>> {
    Pack(AllPieces(segments, totalFrames, padMillis), params)
  }

  ghost predicate AllHold(fragments: seq<Fragment>, pcm: seq<byte>, groups: seq<seq<Piece>>)
    reads fragments, (set f | f in fragments :: f.content), (set f | f in fragments :: f.ranges)
  {
    && |fragments| == |groups|
    && forall i :: 0 <= i < |fragments| ==> fragments[i].Holds(pcm, groups[i])
  }

  lemma FinishedHold(c: Collector)
    requires c.Valid()
    ensures AllHold(c.fragments, c.pcm, c.packing.done)
  {
  }

  function MillisParams(gapMaxMillis: int, fragmentMaxMillis: int): Params {
    Params(fragmentMaxMillis * SAMPLE_RATE_KHZ, gapMaxMillis * SAMPLE_RATE_KHZ)
  }

  // Inside a fragment the speech gaps are shorter than the one limit and the audio before its last
  // piece is shorter than the other; between two fragments one of the limits is reached.
  lemma FragmentsInMillis(
    segments: seq<Segment>, totalFrames: nat, padMillis: int, gapMaxMillis: int, fragmentMaxMillis: int)
    ensures var groups := Groups(segments, totalFrames, padMillis, MillisParams(gapMaxMillis, fragmentMaxMillis));
      && Flatten(groups) == AllPieces(segments, totalFrames, padMillis)
      && (forall i :: 0 <= i < |groups| ==> groups[i] != [])
      && (forall i, k :: 0 <= i < |groups| && 0 < k < |groups[i]| ==>
            Frames(groups[i][..k]) < fragmentMaxMillis * SAMPLE_RATE_KHZ
            && groups[i][k].speechStart - groups[i][k - 1].speechEnd < gapMaxMillis * SAMPLE_RATE_KHZ)
      && (forall i, j :: 0 <= i < j < |groups| && j == i + 1 ==>
            Frames(groups[i]) >= fragmentMaxMillis * SAMPLE_RATE_KHZ
            || groups[j][0].speechStart - Last(groups[i]).speechEnd >= gapMaxMillis * SAMPLE_RATE_KHZ)
  {
    var params := MillisParams(gapMaxMillis, fragmentMaxMillis);
    var groups := Groups(segments, totalFrames, padMillis, params);
    PackCutsExactly(AllPieces(segments, totalFrames, padMillis), params);
    assert CutExactly(groups, params);
    hide Pack, AllPieces, Flatten, Frames;
    forall i, k | 0 <= i < |groups| && 0 < k < |groups[i]|
      ensures Frames(groups[i][..k]) < fragmentMaxMillis * SAMPLE_RATE_KHZ
      ensures groups[i][k].speechStart - groups[i][k - 1].speechEnd < gapMaxMillis * SAMPLE_RATE_KHZ
    {
      JoinedAt(groups[i], k, params);
    }
    forall i, j | 0 <= i < j < |groups| && j == i + 1
      ensures Frames(groups[i]) >= fragmentMaxMillis * SAMPLE_RATE_KHZ
              || groups[j][0].speechStart - Last(groups[i]).speechEnd >= gapMaxMillis * SAMPLE_RATE_KHZ
    {
      assert Cut(groups[i], groups[j], params);
    }
  }

  method SegmentAudioByTimestampRanges(
    pcm: seq<byte>, segments: seq<Segment>, padMillis: int, gapMaxMillis: int, fragmentMaxMillis: int)
    returns (result: Result<seq<Fragment>, Error>)
    requires SortedSegments(segments) && padMillis >= 0
    ensures result.Err? <==> |pcm| % BYTES_PER_FRAME != 0
    ensures result.Ok? ==> AllHold(result.value, pcm,
      Groups(segments, |pcm| / BYTES_PER_FRAME, padMillis, MillisParams(gapMaxMillis, fragmentMaxMillis)))
  {
    hide Frames, RangesOf, Audio, Flatten, Add, AllHold, Collector.Valid;
    var totalFrames := |pcm| / BYTES_PER_FRAME;
    if |pcm| != totalFrames * BYTES_PER_FRAME {
      return Err(NotMultipleOf16Bits);
    }
    var c := new Collector(MillisParams(gapMaxMillis, fragmentMaxMillis), pcm);
    var prevEndMillis := 0;
    ghost var taken := 0;
    ghost var accepted: seq<Piece> := [];
    for i := 0 to |segments|
      invariant fresh(c) && fresh(c.current) && fresh(c.current.content) && fresh(c.current.ranges)
      invariant c.Valid() && c.pcm == pcm && c.params == MillisParams(gapMaxMillis, fragmentMaxMillis)
      invariant c.packing == AddAll(accepted, c.params)
      invariant RoomLeft(segments, i, prevEndMillis, taken, padMillis)
      invariant AllPieces(segments, totalFrames, padMillis)
             == accepted + Pieces(segments, i, prevEndMillis, totalFrames, padMillis)
    {
      if !InRange(segments[i], totalFrames) {
        SkipKeepsRoom(segments, i, prevEndMillis, taken, padMillis);
        continue;
      }
      var p := PaddedPiece(segments, i, prevEndMillis, totalFrames, padMillis);
      taken := TakePiece(segments, i, prevEndMillis, taken, totalFrames, padMillis);
      assert Inside(pcm, p);
      c.AppendSegment(
        pcm[p.realStart * BYTES_PER_FRAME..p.realEnd * BYTES_PER_FRAME], p,
        p.speechStart, p.realStart, p.speechEnd, p.realEnd);
      assert (accepted + [p])[..|accepted|] == accepted && Last(accepted + [p]) == p;
      accepted := accepted + [p];
      prevEndMillis := segments[i].endMs;
    }
    c.FinalizeIfPresent();
    assert accepted == AllPieces(segments, totalFrames, padMillis);
    FinishedHold(c);
    return Ok(c.fragments);
  }
}
