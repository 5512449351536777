/** Grouping words into subtitles by pauses, speakers and length. */
module Subtitles {
  import opened Runs

  datatype InputWord = InputWord(text: string, startMs: int, endMs: int, speaker: int)

  datatype OutputWord = OutputWord(text: string, startMs: int, endMs: int)

  datatype Subtitle = Subtitle(words: seq<OutputWord>, startMs: int, endMs: int)

  function Output(w: InputWord): OutputWord { OutputWord(w.text, w.startMs, w.endMs) }

  function JoinWords(words: seq<InputWord>): Subtitle {
    if words == [] then Subtitle([], 0, 0)
    else
      Subtitle(
        seq(|words|, i requires 0 <= i < |words| => Output(words[i])), words[0].startMs, words[|words| - 1].endMs)
  }

  // A pause over the limit, or a change of speaker, between word k and the next.
  predicate BreakAfter(words: seq<InputWord>, k: nat, maxPauseMs: int)
    requires k + 1 < |words|
  {
    words[k].endMs + maxPauseMs < words[k + 1].startMs || words[k].speaker != words[k + 1].speaker
  }

  // A single word is always a group; longer groups have at most maxWords words and no break inside.
  ghost predicate OneGroup(words: seq<InputWord>, maxPauseMs: int, maxWords: int, from: nat, end: nat) {
    && from < end <= |words|
    && (end - from == 1 || end - from <= maxWords)
    && forall k :: from <= k < end - 1 ==> !BreakAfter(words, k, maxPauseMs)
  }

  ghost function GroupRule(words: seq<InputWord>, maxPauseMs: int, maxWords: int): Rule {
    (i: nat, j: nat) => OneGroup(words, maxPauseMs, maxWords, i, j)
  }

  ghost predicate GroupsAt(result: seq<Subtitle>, words: seq<InputWord>, cuts: seq<nat>) {
    && |cuts| == |result| + 1
    && (forall k :: 0 <= k < |cuts| ==> cuts[k] <= |words|)
    && forall k, l :: 0 <= k < l < |cuts| && l == k + 1 ==>
         cuts[k] < cuts[l] && result[k] == JoinWords(words[cuts[k]..cuts[l]])
  }

  // The groups are allowed ones that cover all words in order.
  ghost predicate AllowedGrouping(result: seq<Subtitle>, words: seq<InputWord>, maxPauseMs: int, maxWords: int) {
    exists cuts: seq<nat> ::
      GroupsAt(result, words, cuts) && ValidRuns(cuts, |words|, GroupRule(words, maxPauseMs, maxWords))
  }

  // Besides, no group could have taken the next word as well.
  ghost predicate GreedyGrouping(result: seq<Subtitle>, words: seq<InputWord>, maxPauseMs: int, maxWords: int) {
    exists cuts: seq<nat> ::
      GroupsAt(result, words, cuts) && GreedyRuns(cuts, |words|, GroupRule(words, maxPauseMs, maxWords))
  }

  // The words before `i` are grouped; the last group could not have taken word i as well.
  ghost predicate GroupedUpTo(
    result: seq<Subtitle>, words: seq<InputWord>, maxPauseMs: int, maxWords: int, cuts: seq<nat>, i: nat)
  {
    && GroupsAt(result, words, cuts)
    && GreedyRuns(cuts, i, GroupRule(words, maxPauseMs, maxWords))
    && (1 < |cuts| && i < |words| ==> !OneGroup(words, maxPauseMs, maxWords, cuts[|cuts| - 2], i + 1))
  }

  lemma GroupAdded(
    result: seq<Subtitle>, words: seq<InputWord>, maxPauseMs: int, maxWords: int, cuts: seq<nat>, i: nat, end: nat)
    requires GroupedUpTo(result, words, maxPauseMs, maxWords, cuts, i)
    requires i < end <= |words| && OneGroup(words, maxPauseMs, maxWords, i, end)
    requires end < |words| ==> !OneGroup(words, maxPauseMs, maxWords, i, end + 1)
    ensures GroupedUpTo(result + [JoinWords(words[i..end])], words, maxPauseMs, maxWords, cuts + [end], end)
  {
    hide JoinWords;
    RunAdded(cuts, i, end, GroupRule(words, maxPauseMs, maxWords));
  }

  method Group(words: seq<InputWord>, maxPauseMs: int, maxWords: int)
    returns (result: seq<Subtitle>)
    ensures GreedyGrouping(result, words, maxPauseMs, maxWords)
  {
    result := [];
    ghost var cuts: seq<nat> := [0];
    NothingGrouped(words, maxPauseMs, maxWords);
    if |words| == 0 {
      GroupingIsDone(result, words, maxPauseMs, maxWords, cuts);
      return;
    }
    hide JoinWords, GroupedUpTo, GroupsAt, GreedyRuns, GroupRule, GreedyGrouping;
    var start, end := 0, 1;
    while end < |words|
      invariant 0 <= start < end <= |words| && GroupedUpTo(result, words, maxPauseMs, maxWords, cuts, start)
      invariant OneGroup(words, maxPauseMs, maxWords, start, end)
    {
      var prev := end - 1;
      if words[prev].endMs + maxPauseMs < words[end].startMs || words[prev].speaker != words[end].speaker
         || end - start >= maxWords {
        assert BreakAfter(words, prev, maxPauseMs) || end + 1 - start > maxWords;
        GroupAdded(result, words, maxPauseMs, maxWords, cuts, start, end);
        result := result + [JoinWords(words[start..end])];
        cuts := cuts + [end];
        start := end;
        end := start + 1;
        continue;
      }
      end := end + 1;
    }
    assert words[start..] == words[start..|words|];
    GroupAdded(result, words, maxPauseMs, maxWords, cuts, start, |words|);
    result := result + [JoinWords(words[start..])];
    cuts := cuts + [|words|];
    GroupingIsDone(result, words, maxPauseMs, maxWords, cuts);
  }

  lemma NothingGrouped(words: seq<InputWord>, maxPauseMs: int, maxWords: int)
    ensures GroupedUpTo([], words, maxPauseMs, maxWords, [0], 0)
  {
  }

  lemma GroupingIsDone(result: seq<Subtitle>, words: seq<InputWord>, maxPauseMs: int, maxWords: int, cuts: seq<nat>)
    requires GroupedUpTo(result, words, maxPauseMs, maxWords, cuts, |words|)
    ensures GreedyGrouping(result, words, maxPauseMs, maxWords)
  {
  }

  lemma GroupRuleIsHereditary(words: seq<InputWord>, maxPauseMs: int, maxWords: int)
    ensures Hereditary(|words|, GroupRule(words, maxPauseMs, maxWords))
  {
  }

  // No allowed grouping has fewer groups.
  lemma FewestGroups(
    words: seq<InputWord>, maxPauseMs: int, maxWords: int, result: seq<Subtitle>, other: seq<Subtitle>)
    requires GreedyGrouping(result, words, maxPauseMs, maxWords) && AllowedGrouping(other, words, maxPauseMs, maxWords)
    ensures |result| <= |other|
  {
    var rule := GroupRule(words, maxPauseMs, maxWords);
    var cuts: seq<nat> :| GroupsAt(result, words, cuts) && GreedyRuns(cuts, |words|, rule);
    var otherCuts: seq<nat> :| GroupsAt(other, words, otherCuts) && ValidRuns(otherCuts, |words|, rule);
    GroupRuleIsHereditary(words, maxPauseMs, maxWords);
    GreedyIsMinimal(cuts, otherCuts, |words|, rule);
  }

  // ---- What a grouping shows ----

  // The words of all groups.
  ghost function Shown(result: seq<Subtitle>): seq<OutputWord> {
    if result == [] then [] else Shown(result[..|result| - 1]) + result[|result| - 1].words
  }

  ghost predicate ShowsWords(shown: seq<OutputWord>, words: seq<InputWord>) {
    && |shown| == |words|
    && forall i :: 0 <= i < |words| ==>
         shown[i].text == words[i].text && shown[i].startMs == words[i].startMs && shown[i].endMs == words[i].endMs
  }

  lemma JoinedWordsAreShown(words: seq<InputWord>)
    ensures ShowsWords(JoinWords(words).words, words)
    ensures words != [] ==>
      JoinWords(words).startMs == words[0].startMs && JoinWords(words).endMs == words[|words| - 1].endMs
  {
  }

  lemma {:induction false} ShownUpTo(words: seq<InputWord>, result: seq<Subtitle>, cuts: seq<nat>, k: nat)
    requires GroupsAt(result, words, cuts) && cuts[0] == 0 && k <= |result|
    ensures ShowsWords(Shown(result[..k]), words[..cuts[k]])
  {
    if k > 0 {
      ShownUpTo(words, result, cuts, k - 1);
      assert result[..k][..k - 1] == result[..k - 1];
      assert cuts[k - 1] < cuts[k] && result[k - 1] == JoinWords(words[cuts[k - 1]..cuts[k]]);
      JoinedWordsAreShown(words[cuts[k - 1]..cuts[k]]);
    }
  }

  lemma GroupLasts(words: seq<InputWord>, result: seq<Subtitle>, cuts: seq<nat>, k: nat)
    requires GroupsAt(result, words, cuts) && k < |result|
    ensures var group := result[k];
      && group.words != []
      && group.startMs == group.words[0].startMs && group.endMs == group.words[|group.words| - 1].endMs
  {
    assert cuts[k] < cuts[k + 1] && result[k] == JoinWords(words[cuts[k]..cuts[k + 1]]);
    JoinedWordsAreShown(words[cuts[k]..cuts[k + 1]]);
  }

  // Every word is shown once, in order, with its own text and times, and a group lasts from its first
  // word to its last.
  lemma GroupsShowAllWords(words: seq<InputWord>, maxPauseMs: int, maxWords: int, result: seq<Subtitle>)
    requires AllowedGrouping(result, words, maxPauseMs, maxWords)
    ensures ShowsWords(Shown(result), words)
    ensures forall k :: 0 <= k < |result| ==>
      var group := result[k];
      && group.words != []
      && group.startMs == group.words[0].startMs && group.endMs == group.words[|group.words| - 1].endMs
  {
    var cuts: seq<nat> :|
      GroupsAt(result, words, cuts) && ValidRuns(cuts, |words|, GroupRule(words, maxPauseMs, maxWords));
    RunsReachEnds(cuts, |words|, GroupRule(words, maxPauseMs, maxWords));
    assert |cuts| == |result| + 1 && result[..|result|] == result && words[..|words|] == words;
    hide GroupsAt, ValidRuns, GroupRule, AllowedGrouping, JoinWords, Shown;
    ShownUpTo(words, result, cuts, |result|);
    forall k | 0 <= k < |result|
      ensures result[k].words != []
      ensures result[k].startMs == result[k].words[0].startMs
      ensures result[k].endMs == result[k].words[|result[k].words| - 1].endMs
    {
      GroupLasts(words, result, cuts, k);
    }
  }

  // Words from..end of a group: pauses are short and one person speaks.
  lemma GroupHolds(words: seq<InputWord>, maxPauseMs: int, maxWords: int, from: nat, end: nat)
    ensures OneGroup(words, maxPauseMs, maxWords, from, end)
      <==> from < end <= |words| && (end - from == 1 || end - from <= maxWords)
           && forall j :: from <= j < end - 1 ==>
                words[j + 1].startMs - words[j].endMs <= maxPauseMs && words[j].speaker == words[j + 1].speaker
  {
    if from < end <= |words| {
      assert forall j :: from <= j < end - 1 ==>
        (BreakAfter(words, j, maxPauseMs)
         <==> words[j + 1].startMs - words[j].endMs > maxPauseMs || words[j].speaker != words[j + 1].speaker);
    }
  }

  // A group before another one stops because of a long pause, because somebody else goes on, or
  // because it is full.
  lemma GroupStops(words: seq<InputWord>, maxPauseMs: int, maxWords: int, from: nat, end: nat)
    requires OneGroup(words, maxPauseMs, maxWords, from, end) && end < |words|
    requires !OneGroup(words, maxPauseMs, maxWords, from, end + 1)
    ensures words[end].startMs - words[end - 1].endMs > maxPauseMs
            || words[end - 1].speaker != words[end].speaker || end - from >= maxWords
  {
  }

  // Groups begin where the ones before them end, and are as long as the rule allows.
  lemma GroupIsLongest(words: seq<InputWord>, maxPauseMs: int, maxWords: int, result: seq<Subtitle>, k: nat)
    requires GreedyGrouping(result, words, maxPauseMs, maxWords) && k < |result|
    ensures var from := |Shown(result[..k])|;
      var end := from + |result[k].words|;
      && OneGroup(words, maxPauseMs, maxWords, from, end)
      && (k + 1 < |result| ==> end < |words| && !OneGroup(words, maxPauseMs, maxWords, from, end + 1))
  {
    var rule := GroupRule(words, maxPauseMs, maxWords);
    var cuts: seq<nat> :| GroupsAt(result, words, cuts) && GreedyRuns(cuts, |words|, rule);
    RunIsAllowed(cuts, |words|, rule, k);
    RunsReachEnds(cuts, |words|, rule);
    GroupWords(words, result, cuts, k);
    hide GreedyRuns, GroupsAt, OneGroup, Shown;
  }

  lemma GroupWords(words: seq<InputWord>, result: seq<Subtitle>, cuts: seq<nat>, k: nat)
    requires GroupsAt(result, words, cuts) && cuts[0] == 0 && k < |result|
    ensures |cuts| == |result| + 1 && |Shown(result[..k])| == cuts[k]
    ensures cuts[k] < cuts[k + 1] && |result[k].words| == cuts[k + 1] - cuts[k]
  {
    ShownUpTo(words, result, cuts, k);
    hide Shown;
    assert cuts[k] < cuts[k + 1] && result[k] == JoinWords(words[cuts[k]..cuts[k + 1]]);
  }

  // Inside a group pauses are short and one person speaks, and the breaks between groups are forced.
  lemma BreaksAreForced(words: seq<InputWord>, maxPauseMs: int, maxWords: int, result: seq<Subtitle>, k: nat)
    requires GreedyGrouping(result, words, maxPauseMs, maxWords) && k < |result|
    ensures var from := |Shown(result[..k])|;
      var end := from + |result[k].words|;
      && from < end <= |words| && (end - from == 1 || end - from <= maxWords)
      && (forall j :: from <= j < end - 1 ==>
            words[j + 1].startMs - words[j].endMs <= maxPauseMs && words[j].speaker == words[j + 1].speaker)
      && (k + 1 < |result| ==>
            end < |words|
            && (words[end].startMs - words[end - 1].endMs > maxPauseMs
                || words[end - 1].speaker != words[end].speaker || end - from >= maxWords))
  {
    var from := |Shown(result[..k])|;
    var end := from + |result[k].words|;
    GroupIsLongest(words, maxPauseMs, maxWords, result, k);
    hide GreedyGrouping, Shown, OneGroup;
    GroupHolds(words, maxPauseMs, maxWords, from, end);
    if k + 1 < |result| {
      GroupStops(words, maxPauseMs, maxWords, from, end);
    }
  }
}
