/** The sentences built from a restored transcript always pass the checks of their table. */
module TranscriptRows {
  import opened AudioPieces
  import opened SpeechPadding
  import opened Packing
  import opened VadRestore
  import opened ElevenTranscriber
  import opened Sentences

  lemma RestoredWordsHaveDurations(
    pcm: seq<byte>, segments: seq<Segment>, padMillis: int, params: Params, stt: SpeechToText)
    requires RecognisedPlausibly(pcm, segments, padMillis, params, stt)
    ensures var words := Flatten(PartWords(pcm, PartsOf(pcm, segments, padMillis, params), stt));
      SortedByStart(words) && forall i :: 0 <= i < |words| ==> words[i].startMs <= words[i].endMs < SIGNED_LIMIT
  {
    TranscriptRoundTrip(pcm, segments, padMillis, params, stt);
    var parts := PartsOf(pcm, segments, padMillis, params);
    var lists := PartWords(pcm, parts, stt);
    hide PartsOf, PartWords, PointsAtSentAudio, StartingInside, Flatten, Frames;
    forall i | 0 <= i < |Flatten(lists)|
      ensures Flatten(lists)[i].startMs <= Flatten(lists)[i].endMs < SIGNED_LIMIT
    {
      var p, k := MemberOfFlatten(lists, i);
      var kept := StartingInside(stt(Audio(pcm, parts[p])).value, Frames(parts[p]));
      assert PointsAtSentAudio(pcm, parts[p], kept[k], lists[p][k], lists[p][k + 1..]);
      PointingWordsHaveDurations(pcm, parts[p], kept[k], lists[p][k], lists[p][k + 1..]);
    }
  }

  lemma PointingWordsHaveDurations(pcm: seq<byte>, part: seq<Piece>, w: Word, restored: Word, later: seq<Word>)
    requires part != [] && AllInside(pcm, part) && PointsAtSentAudio(pcm, part, w, restored, later)
    requires |pcm| < WORD_LIMIT * BYTES_PER_FRAME
    ensures restored.startMs <= restored.endMs < SIGNED_LIMIT
  {
  }

  // For any recording, detector output and plausible recognition: every sentence row is accepted,
  // with its times as they are.
  lemma TranscriptSentencesPassChecks(
    pcm: seq<byte>, segments: seq<Segment>, padMillis: int, params: Params, stt: SpeechToText,
    result: seq<Sentence>)
    requires RecognisedPlausibly(pcm, segments, padMillis, params, stt)
    requires AllowedSplit(result, Flatten(PartWords(pcm, PartsOf(pcm, segments, padMillis, params), stt)))
    ensures forall k :: 0 <= k < |result| ==>
      RowChecks(RowOf(result[k]))
      && RowOf(result[k]).startMs == result[k].startMs as int && RowOf(result[k]).endMs == result[k].endMs as int
  {
    var words := Flatten(PartWords(pcm, PartsOf(pcm, segments, padMillis, params), stt));
    RestoredWordsHaveDurations(pcm, segments, padMillis, params, stt);
    SentencesPassChecks(words, result);
    SentencesEndEarly(words, result);
  }
}
