/**
 * Pieces of speech cut out of a PCM buffer, and what it means for a stitched buffer
 * to be made of them. Positions are frame indices; a frame takes two bytes.
 */
module AudioPieces {
  const BYTES_PER_FRAME := 2
  const SAMPLE_RATE_KHZ := 16

  newtype byte = x: int | 0 <= x < 256

  datatype SegmentRange = SegmentRange(realStart: int, realEnd: int, copyStart: int) {
    function Duration(): int { realEnd - realStart }
  }

  // A padded stretch of the recording together with the bare speech it surrounds.
  datatype Piece = Piece(speechStart: int, speechEnd: int, realStart: int, realEnd: int) {
    function Duration(): int { realEnd - realStart }
  }

  ghost predicate Inside(pcm: seq<byte>, p: Piece) {
    0 <= p.realStart < p.realEnd && p.realEnd * BYTES_PER_FRAME <= |pcm|
  }

  ghost predicate AllInside(pcm: seq<byte>, pieces: seq<Piece>) {
    forall k :: 0 <= k < |pieces| ==> Inside(pcm, pieces[k])
  }

  // Strictly increasing and pairwise disjoint, starting no earlier than lo.
  ghost predicate Ascending(pieces: seq<Piece>, lo: int) {
    && (forall k :: 0 <= k < |pieces| ==> lo <= pieces[k].realStart < pieces[k].realEnd)
    && (forall j, k :: 0 <= j < k < |pieces| ==> pieces[j].realEnd <= pieces[k].realStart)
  }

  // Whole milliseconds, except that the very last end may be clipped.
  ghost predicate WholeMillis(pieces: seq<Piece>) {
    && (forall k :: 0 <= k < |pieces| ==> pieces[k].realStart % SAMPLE_RATE_KHZ == 0)
    && (forall k :: 0 <= k < |pieces| - 1 ==> pieces[k].realEnd % SAMPLE_RATE_KHZ == 0)
  }

  ghost function Frames(pieces: seq<Piece>): int {
    if pieces == [] then 0 else pieces[0].Duration() + Frames(pieces[1..])
  }

  function Bytes(pcm: seq<byte>, p: Piece): seq<byte>
    requires Inside(pcm, p)
  {
    pcm[p.realStart * BYTES_PER_FRAME..p.realEnd * BYTES_PER_FRAME]
  }

  // The bytes of the pieces one after another.
  ghost function Audio(pcm: seq<byte>, pieces: seq<Piece>): seq<byte>
    requires AllInside(pcm, pieces)
  {
    if pieces == [] then [] else Bytes(pcm, pieces[0]) + Audio(pcm, pieces[1..])
  }

  // The ranges of the pieces when their audio is laid out from frame `offset` on.
  ghost function RangesOf(pieces: seq<Piece>, offset: int): (ranges: seq<SegmentRange>)
    ensures |ranges| == |pieces|
  {
    if pieces == [] then []
    else [SegmentRange(pieces[0].realStart, pieces[0].realEnd, offset)]
         + RangesOf(pieces[1..], offset + pieces[0].Duration())
  }

  ghost function Flatten<T>(groups: seq<seq<T>>): seq<T> {
    if groups == [] then [] else groups[0] + Flatten(groups[1..])
  }

  lemma {:induction false} FlattenConcat<T>(left: seq<seq<T>>, right: seq<seq<T>>)
    ensures Flatten(left + right) == Flatten(left) + Flatten(right)
  {
    if left == [] {
      assert left + right == right;
    } else {
      assert (left + right)[1..] == left[1..] + right;
      FlattenConcat(left[1..], right);
    }
  }

  lemma {:induction false} FlattenSnoc<T>(groups: seq<seq<T>>, g: seq<T>)
    ensures Flatten(groups + [g]) == Flatten(groups) + g
  {
    FlattenConcat(groups, [g]);
    assert Flatten([g]) == g + Flatten([g][1..]) == g;
  }

  lemma {:induction false} LayoutRanges(left: seq<Piece>, right: seq<Piece>, offset: int)
    ensures Frames(left + right) == Frames(left) + Frames(right)
    ensures RangesOf(left + right, offset) == RangesOf(left, offset) + RangesOf(right, offset + Frames(left))
  {
    if left == [] {
      assert left + right == right;
    } else {
      assert (left + right)[1..] == left[1..] + right;
      LayoutRanges(left[1..], right, offset + left[0].Duration());
    }
  }

  lemma {:induction false} LayoutAudio(pcm: seq<byte>, left: seq<Piece>, right: seq<Piece>)
    requires AllInside(pcm, left) && AllInside(pcm, right)
    ensures Audio(pcm, left + right) == Audio(pcm, left) + Audio(pcm, right)
  {
    if left == [] {
      assert left + right == right;
    } else {
      assert (left + right)[1..] == left[1..] + right;
      LayoutAudio(pcm, left[1..], right);
      assert Bytes(pcm, left[0]) + (Audio(pcm, left[1..]) + Audio(pcm, right))
          == (Bytes(pcm, left[0]) + Audio(pcm, left[1..])) + Audio(pcm, right);
    }
  }

  lemma {:induction false} AudioLength(pcm: seq<byte>, pieces: seq<Piece>)
    requires AllInside(pcm, pieces)
    ensures |Audio(pcm, pieces)| == Frames(pieces) * BYTES_PER_FRAME
    ensures Frames(pieces) >= |pieces|
  {
    if pieces != [] {
      AudioLength(pcm, pieces[1..]);
    }
  }

  // The recording frame that frame f of the stitched audio was copied from.
  ghost function Frame(buffer: seq<byte>, f: int): seq<byte>
    requires 0 <= f && (f + 1) * BYTES_PER_FRAME <= |buffer|
  {
    buffer[f * BYTES_PER_FRAME..(f + 1) * BYTES_PER_FRAME]
  }

  ghost predicate Contains(r: SegmentRange, f: int) {
    r.copyStart <= f < r.copyStart + r.Duration()
  }

  // The ranges tile the stitched buffer: they follow one another without gap or overlap.
  lemma {:induction false} RangesTile(pieces: seq<Piece>, offset: int, k: nat)
    requires k < |pieces|
    ensures var r := RangesOf(pieces, offset)[k];
      r.realStart == pieces[k].realStart && r.realEnd == pieces[k].realEnd
      && r.copyStart == offset + Frames(pieces[..k])
    ensures k + 1 < |pieces| ==>
      RangesOf(pieces, offset)[k + 1].copyStart == RangesOf(pieces, offset)[k].copyStart + pieces[k].Duration()
    ensures k + 1 == |pieces| ==>
      offset + Frames(pieces) == RangesOf(pieces, offset)[k].copyStart + pieces[k].Duration()
  {
    if k == 0 {
      if |pieces| > 1 {
        assert pieces[1..] != [];
      } else {
        assert pieces[1..] == [];
      }
    } else {
      assert pieces[..k][1..] == pieces[1..][..k - 1];
      RangesTile(pieces[1..], offset + pieces[0].Duration(), k - 1);
    }
  }

  lemma {:induction false} RangeOfFrame(pieces: seq<Piece>, offset: int, f: int) returns (k: nat)
    requires forall k :: 0 <= k < |pieces| ==> pieces[k].Duration() > 0
    requires offset <= f < offset + Frames(pieces)
    ensures k < |pieces| && Contains(RangesOf(pieces, offset)[k], f)
  {
    if f < offset + pieces[0].Duration() {
      k := 0;
    } else {
      k := RangeOfFrame(pieces[1..], offset + pieces[0].Duration(), f);
      k := k + 1;
    }
  }

  // Copy positions grow with the index, so at most one range contains a frame.
  lemma {:induction false} CopyStartsGrow(pieces: seq<Piece>, offset: int, j: nat, k: nat)
    requires forall k :: 0 <= k < |pieces| ==> pieces[k].Duration() > 0
    requires j < k < |pieces|
    ensures RangesOf(pieces, offset)[j].copyStart + pieces[j].Duration() <= RangesOf(pieces, offset)[k].copyStart
    decreases k
  {
    RangesTile(pieces, offset, k - 1);
    if j < k - 1 {
      CopyStartsGrow(pieces, offset, j, k - 1);
    }
  }

  // No copy position is ahead of the recording.
  lemma {:induction false} CopyBehindReal(pieces: seq<Piece>, offset: int, lo: int, k: nat)
    requires Ascending(pieces, lo) && offset <= lo && k < |pieces|
    ensures RangesOf(pieces, offset)[k].copyStart <= pieces[k].realStart
  {
    if k > 0 {
      AscendingTail(pieces, lo);
      CopyBehindReal(pieces[1..], offset + pieces[0].Duration(), pieces[0].realEnd, k - 1);
    }
  }

  lemma AscendingTail(pieces: seq<Piece>, lo: int)
    requires Ascending(pieces, lo) && pieces != []
    ensures lo <= pieces[0].realStart < pieces[0].realEnd && Ascending(pieces[1..], pieces[0].realEnd)
  {
  }

  // Copy positions are whole milliseconds if the pieces are.
  lemma {:induction false} CopyIsWholeMillis(pieces: seq<Piece>, offset: int, k: nat)
    requires WholeMillis(pieces) && offset % SAMPLE_RATE_KHZ == 0 && k < |pieces|
    ensures RangesOf(pieces, offset)[k].copyStart % SAMPLE_RATE_KHZ == 0
  {
    if k > 0 {
      assert WholeMillis(pieces[1..]);
      assert pieces[0].realStart % SAMPLE_RATE_KHZ == 0 && pieces[0].realEnd % SAMPLE_RATE_KHZ == 0;
      MultiplesAdd(offset, pieces[0].realStart, pieces[0].realEnd);
      CopyIsWholeMillis(pieces[1..], offset + pieces[0].Duration(), k - 1);
    }
  }

  lemma MultiplesAdd(a: int, b: int, c: int)
    requires a % SAMPLE_RATE_KHZ == 0 && b % SAMPLE_RATE_KHZ == 0 && c % SAMPLE_RATE_KHZ == 0
    ensures (a + (c - b)) % SAMPLE_RATE_KHZ == 0
  {
  }

  lemma {:induction false} FrameOfConcat(left: seq<byte>, right: seq<byte>, n: nat, f: nat)
    requires |left| == n * BYTES_PER_FRAME && (f + 1) * BYTES_PER_FRAME <= |left| + |right|
    ensures Frame(left + right, f) == if f < n then Frame(left, f) else Frame(right, f - n)
  {
  }

  lemma SliceOfSlice<T>(s: seq<T>, from: nat, end: nat, a: nat, b: nat)
    requires a <= b && from + b <= end <= |s|
    ensures s[from..end][a..b] == s[from + a..from + b]
  {
    var u, v := s[from..end][a..b], s[from + a..from + b];
    forall i | 0 <= i < |u| ensures u[i] == v[i] {
      assert v[i] == s[from + a + i];
    }
  }

  lemma FrameOfPiece(pcm: seq<byte>, p: Piece, f: nat)
    requires Inside(pcm, p) && f < p.Duration()
    ensures Frame(Bytes(pcm, p), f) == Frame(pcm, p.realStart + f)
  {
    var from, end := p.realStart * BYTES_PER_FRAME, p.realEnd * BYTES_PER_FRAME;
    var a, b := f * BYTES_PER_FRAME, (f + 1) * BYTES_PER_FRAME;
    SliceOfSlice(pcm, from, end, a, b);
  }

  lemma BytesLength(pcm: seq<byte>, p: Piece)
    requires Inside(pcm, p)
    ensures |Bytes(pcm, p)| == p.Duration() * BYTES_PER_FRAME
  {
  }

  lemma {:induction false} AudioAround(pcm: seq<byte>, pieces: seq<Piece>, k: nat)
    requires AllInside(pcm, pieces) && k < |pieces|
    ensures Audio(pcm, pieces) ==
      Audio(pcm, pieces[..k]) + (Bytes(pcm, pieces[k]) + Audio(pcm, pieces[k + 1..]))
  {
    assert pieces == pieces[..k] + pieces[k..];
    LayoutAudio(pcm, pieces[..k], pieces[k..]);
    assert pieces[k..][1..] == pieces[k + 1..];
  }

  // A frame of the stitched audio is the recording frame at the same place of its range.
  lemma {:induction false} FrameFaithful(pcm: seq<byte>, pieces: seq<Piece>, k: nat, f: int)
    requires AllInside(pcm, pieces) && k < |pieces|
    requires Contains(RangesOf(pieces, 0)[k], f)
    ensures |Audio(pcm, pieces)| == Frames(pieces) * BYTES_PER_FRAME
    ensures 0 <= f < Frames(pieces)
    ensures var r := RangesOf(pieces, 0)[k];
      var origin := f + r.realStart - r.copyStart;
      0 <= r.realStart <= origin < r.realEnd && r.realEnd * BYTES_PER_FRAME <= |pcm|
      && Frame(Audio(pcm, pieces), f) == Frame(pcm, origin)
  {
    hide Audio, Bytes, Frames, RangesOf, Frame;
    RangesTile(pieces, 0, k);
    AudioLength(pcm, pieces);
    BytesLength(pcm, pieces[k]);
    AudioLength(pcm, pieces[..k]);
    AudioLength(pcm, pieces[k + 1..]);
    AudioAround(pcm, pieces, k);
    var before := Frames(pieces[..k]);
    var tail := Bytes(pcm, pieces[k]) + Audio(pcm, pieces[k + 1..]);
    FrameOfConcat(Audio(pcm, pieces[..k]), tail, before, f);
    FrameOfConcat(Bytes(pcm, pieces[k]), Audio(pcm, pieces[k + 1..]), pieces[k].Duration(), f - before);
    FrameOfPiece(pcm, pieces[k], f - before);
  }
}
