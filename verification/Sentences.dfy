/** Splitting a word stream into sentences. */
module Sentences {
  import opened VadRestore
  import opened Runs

  datatype Sentence = Sentence(startWordSeq: nat, endWordSeq: nat, startMs: uint32, endMs: uint32, text: string)

  const MAX_WORDS_PER_SENTENCE := 40

  predicate IsSpace(c: char) {
    c == '\t' || c == '\n' || c == '\U{000B}' || c == '\U{000C}' || c == '\r' || c == ' '
    || c == '\U{0085}' || c == '\U{00A0}'
    || c == '\U{1680}' || '\U{2000}' <= c <= '\U{200A}' || c == '\U{2028}' || c == '\U{2029}' || c == '\U{202F}'
    || c == '\U{205F}' || c == '\U{3000}'
  }

  // Whitespace, closing quotes and closing brackets.
  predicate IsTrailingNoise(c: char) {
    IsSpace(c) || c == '\U{00BB}' || c == '"' || c == '\U{201D}' || c == '\'' || c == '\U{2019}' || c == ')' || c == ']'
  }

  predicate IsTerminalMark(c: char) {
    c == '.' || c == '!' || c == '?' || c == '\U{2026}'
  }

  function TrimRight(word: string): string {
    if word != "" && IsTrailingNoise(word[|word| - 1]) then TrimRight(word[..|word| - 1]) else word
  }

  // The trimmed word ends in a sentence-final mark.
  predicate IsTerminal(word: string) {
    var trimmed := TrimRight(word);
    trimmed != "" && IsTerminalMark(trimmed[|trimmed| - 1])
  }

  // Some sentence-final mark is followed by nothing but noise.
  lemma {:induction false} TerminalMeans(word: string)
    ensures IsTerminal(word) <==>
      exists i :: 0 <= i < |word| && IsTerminalMark(word[i]) && forall j :: i < j < |word| ==> IsTrailingNoise(word[j])
  {
    var n := |word|;
    if n > 0 && IsTrailingNoise(word[n - 1]) {
      var init := word[..n - 1];
      TerminalMeans(init);
      if i :| 0 <= i < |init| && IsTerminalMark(init[i]) && forall j :: i < j < |init| ==> IsTrailingNoise(init[j]) {
        assert IsTerminalMark(word[i]) && forall j :: i < j < n ==> IsTrailingNoise(word[j]);
      }
      if i :| 0 <= i < n && IsTerminalMark(word[i]) && forall j :: i < j < n ==> IsTrailingNoise(word[j]) {
        assert i < n - 1 && IsTerminalMark(init[i]) && forall j :: i < j < |init| ==> IsTrailingNoise(init[j]);
      }
    }
  }

  function JoinTexts(words: seq<Word>): string {
    if |words| == 0 then ""
    else if |words| == 1 then words[0].text
    else words[0].text + " " + JoinTexts(words[1..])
  }

  // One speaker, no sentence end inside, not too long.
  ghost predicate OneSentence(words: seq<Word>, from: nat, end: nat) {
    && from < end <= |words| && end - from <= MAX_WORDS_PER_SENTENCE
    && (forall k :: from <= k < end ==> words[k].speaker == words[from].speaker)
    && (forall k :: from <= k < end - 1 ==> !IsTerminal(words[k].text))
  }

  ghost function SentenceRule(words: seq<Word>): Rule {
    (i: nat, j: nat) => OneSentence(words, i, j)
  }

  ghost function SentenceOf(words: seq<Word>, from: nat, end: nat): Sentence
    requires from < end <= |words|
  {
    Sentence(from, end - 1, words[from].startMs, words[end - 1].endMs, JoinTexts(words[from..end]))
  }

  // The sentences are exactly the runs between the given boundaries.
  ghost predicate SentencesAt(result: seq<Sentence>, words: seq<Word>, cuts: seq<nat>) {
    && |cuts| == |result| + 1
    && (forall k :: 0 <= k < |cuts| ==> cuts[k] <= |words|)
    && forall k, l :: 0 <= k < l < |cuts| && l == k + 1 ==>
         cuts[k] < cuts[l] && result[k] == SentenceOf(words, cuts[k], cuts[l])
  }

  // The sentences are allowed ones that cover all words in order.
  ghost predicate AllowedSplit(result: seq<Sentence>, words: seq<Word>) {
    exists cuts: seq<nat> :: SentencesAt(result, words, cuts) && ValidRuns(cuts, |words|, SentenceRule(words))
  }

  // Besides, no sentence could have taken the next word as well.
  ghost predicate GreedySplit(result: seq<Sentence>, words: seq<Word>) {
    exists cuts: seq<nat> :: SentencesAt(result, words, cuts) && GreedyRuns(cuts, |words|, SentenceRule(words))
  }

  // The words before `i` are split; the last sentence could not have taken word i as well.
  ghost predicate SplitUpTo(result: seq<Sentence>, words: seq<Word>, cuts: seq<nat>, i: nat) {
    && SentencesAt(result, words, cuts)
    && GreedyRuns(cuts, i, SentenceRule(words))
    && (1 < |cuts| && i < |words| ==> !OneSentence(words, cuts[|cuts| - 2], i + 1))
  }

  lemma SentenceAdded(result: seq<Sentence>, words: seq<Word>, cuts: seq<nat>, i: nat, end: nat, sentence: Sentence)
    requires SplitUpTo(result, words, cuts, i) && i < end <= |words| && OneSentence(words, i, end)
    requires end < |words| ==> !OneSentence(words, i, end + 1)
    requires sentence == SentenceOf(words, i, end)
    ensures SplitUpTo(result + [sentence], words, cuts + [end], end)
  {
    RunAdded(cuts, i, end, SentenceRule(words));
  }

  // The longest sentence that begins with word i.
  method LastWordOfSentence(words: seq<Word>, i: nat) returns (j: nat)
    requires i < |words|
    ensures i <= j < |words| && OneSentence(words, i, j + 1)
    ensures j + 1 < |words| ==> !OneSentence(words, i, j + 2)
  {
    var n := |words|;
    j := i;
    while j - i + 1 < MAX_WORDS_PER_SENTENCE && j + 1 < n
      invariant i <= j < n && OneSentence(words, i, j + 1)
    {
      var next := j + 1;
      if words[i].speaker != words[next].speaker {
        break;
      }
      if IsTerminal(words[j].text) {
        break;
      }
      j := next;
    }
  }

  method NewSentence(words: seq<Word>, i: nat, j: nat) returns (sentence: Sentence)
    requires i <= j < |words|
    ensures sentence == SentenceOf(words, i, j + 1)
  {
    return Sentence(i, j, words[i].startMs, words[j].endMs, JoinTexts(words[i..j + 1]));
  }

  method SegmentWordStream(words: seq<Word>) returns (result: seq<Sentence>)
    ensures GreedySplit(result, words)
  {
    hide *;
    result := [];
    ghost var cuts: seq<nat> := [0];
    var n, i := |words|, 0;
    NothingSplit(words);
    while i < n
      invariant 0 <= i <= n && SplitUpTo(result, words, cuts, i)
    {
      var j := LastWordOfSentence(words, i);
      var sentence := NewSentence(words, i, j);
      SentenceAdded(result, words, cuts, i, j + 1, sentence);
      result, cuts := result + [sentence], cuts + [j + 1];
      i := j + 1;
    }
    SplitIsDone(result, words, cuts);
  }

  lemma NothingSplit(words: seq<Word>)
    ensures SplitUpTo([], words, [0], 0)
  {
  }

  lemma SplitIsDone(result: seq<Sentence>, words: seq<Word>, cuts: seq<nat>)
    requires SplitUpTo(result, words, cuts, |words|)
    ensures GreedySplit(result, words)
  {
  }

  lemma SentenceRuleIsHereditary(words: seq<Word>)
    ensures Hereditary(|words|, SentenceRule(words))
  {
  }

  // No allowed split has fewer sentences.
  lemma FewestSentences(words: seq<Word>, result: seq<Sentence>, other: seq<Sentence>)
    requires GreedySplit(result, words) && AllowedSplit(other, words)
    ensures |result| <= |other|
  {
    var cuts: seq<nat> :| SentencesAt(result, words, cuts) && GreedyRuns(cuts, |words|, SentenceRule(words));
    var otherCuts: seq<nat> :|
      SentencesAt(other, words, otherCuts) && ValidRuns(otherCuts, |words|, SentenceRule(words));
    SentenceRuleIsHereditary(words);
    GreedyIsMinimal(cuts, otherCuts, |words|, SentenceRule(words));
  }

  // And only one split is greedy.
  lemma GreedySplitIsUnique(words: seq<Word>, a: seq<Sentence>, b: seq<Sentence>)
    requires GreedySplit(a, words) && GreedySplit(b, words)
    ensures a == b
  {
    var cutsA: seq<nat> :| SentencesAt(a, words, cutsA) && GreedyRuns(cutsA, |words|, SentenceRule(words));
    var cutsB: seq<nat> :| SentencesAt(b, words, cutsB) && GreedyRuns(cutsB, |words|, SentenceRule(words));
    SentenceRuleIsHereditary(words);
    GreedyIsUnique(cutsA, cutsB, |words|, SentenceRule(words));
    hide SentenceRule, GreedyRuns, SentenceOf;
    SameCutsSameSentences(words, a, b, cutsA);
  }

  lemma SameCutsSameSentences(words: seq<Word>, a: seq<Sentence>, b: seq<Sentence>, cuts: seq<nat>)
    requires SentencesAt(a, words, cuts) && SentencesAt(b, words, cuts)
    ensures a == b
  {
    forall k | 0 <= k < |a| ensures a[k] == b[k] {
      var from, end := cuts[k], cuts[k + 1];
      assert a[k] == SentenceOf(words, from, end);
      assert b[k] == SentenceOf(words, from, end);
    }
  }

  const SIGNED_LIMIT: uint32 := 0x8000_0000

  // A row of the sentences table, which holds signed times.
  datatype SentenceRow = SentenceRow(startWordSeq: nat, endWordSeq: nat, startMs: int, endMs: int, text: string)

  function ToInt32(ms: uint32): int { if ms < SIGNED_LIMIT then ms as int else (ms as int) - WORD_LIMIT }

  function RowOf(s: Sentence): SentenceRow {
    SentenceRow(s.startWordSeq, s.endWordSeq, ToInt32(s.startMs), ToInt32(s.endMs), s.text)
  }

  // What the table demands of its rows.
  predicate RowChecks(row: SentenceRow) {
    row.endWordSeq >= row.startWordSeq && row.endMs >= row.startMs
  }

  // Words in order of start with non-negative durations make rows that pass the checks, unless
  // the end alone is too late to stay positive.
  lemma SentencesPassChecks(words: seq<Word>, result: seq<Sentence>)
    requires AllowedSplit(result, words) && SortedByStart(words)
    requires forall i :: 0 <= i < |words| ==> words[i].startMs <= words[i].endMs
    ensures forall k :: 0 <= k < |result| ==>
      (RowChecks(RowOf(result[k])) <==> !(result[k].startMs < SIGNED_LIMIT <= result[k].endMs))
  {
    var cuts: seq<nat> :| SentencesAt(result, words, cuts) && ValidRuns(cuts, |words|, SentenceRule(words));
    forall k | 0 <= k < |result|
      ensures result[k].startWordSeq <= result[k].endWordSeq && result[k].startMs <= result[k].endMs
    {
      var from, end := cuts[k], cuts[k + 1];
      assert result[k] == SentenceOf(words, from, end);
      assert words[from].startMs <= words[end - 1].startMs;
    }
  }

  lemma SentencesEndEarly(words: seq<Word>, result: seq<Sentence>)
    requires AllowedSplit(result, words) && SortedByStart(words)
    requires forall i :: 0 <= i < |words| ==> words[i].startMs <= words[i].endMs < SIGNED_LIMIT
    ensures forall k :: 0 <= k < |result| ==> result[k].startMs < SIGNED_LIMIT && result[k].endMs < SIGNED_LIMIT
  {
    var cuts: seq<nat> :| SentencesAt(result, words, cuts) && ValidRuns(cuts, |words|, SentenceRule(words));
    forall k | 0 <= k < |result| ensures result[k].startMs < SIGNED_LIMIT && result[k].endMs < SIGNED_LIMIT {
      assert result[k] == SentenceOf(words, cuts[k], cuts[k + 1]);
    }
  }

  // ---- What a sentence says ----

  // Where word k begins when the words are written with one space between neighbours.
  ghost function WordPos(words: seq<Word>, k: nat): nat
    requires k <= |words|
  {
    if k == 0 then 0 else WordPos(words, k - 1) + |words[k - 1].text| + 1
  }

  // Word k stands at its place, with one space after it unless it is the last.
  ghost predicate SpellsWord(text: string, words: seq<Word>, k: nat)
    requires k < |words|
  {
    var from, end := WordPos(words, k), WordPos(words, k) + |words[k].text|;
    end <= |text| && text[from..end] == words[k].text && (k + 1 < |words| ==> end < |text| && text[end] == ' ')
  }

  // The words in order, one space between neighbours, and nothing else.
  ghost predicate Spells(text: string, words: seq<Word>) {
    |text| + 1 == WordPos(words, |words|) && forall k :: 0 <= k < |words| ==> SpellsWord(text, words, k)
  }

  lemma {:induction false} WordPosOfTail(words: seq<Word>, k: nat)
    requires 0 < k <= |words|
    ensures WordPos(words, k) == |words[0].text| + 1 + WordPos(words[1..], k - 1)
  {
    if k > 1 {
      WordPosOfTail(words, k - 1);
    }
  }

  lemma {:induction false} JoinedTextSpells(words: seq<Word>)
    requires words != []
    ensures Spells(JoinTexts(words), words)
  {
    if |words| == 1 {
      assert WordPos(words, 1) == WordPos(words, 0) + |words[0].text| + 1;
    } else {
      var text, tail := JoinTexts(words), JoinTexts(words[1..]);
      JoinedTextSpells(words[1..]);
      WordPosOfTail(words, |words|);
      hide JoinTexts, SpellsWord;
      forall k | 0 <= k < |words| ensures SpellsWord(text, words, k) {
        if k == 0 {
          SpellsFirst(words, tail);
        } else {
          assert SpellsWord(tail, words[1..], k - 1);
          SpellsLater(words, tail, k);
        }
      }
    }
  }

  lemma SpellsFirst(words: seq<Word>, tail: string)
    requires words != []
    ensures SpellsWord(words[0].text + " " + tail, words, 0)
  {
    var head := words[0].text;
    assert (head + " " + tail)[..|head|] == head;
  }

  lemma SpellsLater(words: seq<Word>, tail: string, k: nat)
    requires 0 < k < |words| && SpellsWord(tail, words[1..], k - 1)
    ensures SpellsWord(words[0].text + " " + tail, words, k)
  {
    WordPosOfTail(words, k);
    hide WordPos;
    var head, p, n := words[0].text + " ", WordPos(words[1..], k - 1), |words[k].text|;
    assert (head + tail)[|head| + p..|head| + p + n] == tail[p..p + n];
  }

  // A sentence begins with its first word, ends with its last one, and its text is its words.
  ghost predicate Says(s: Sentence, words: seq<Word>) {
    && s.startWordSeq <= s.endWordSeq < |words|
    && s.startMs == words[s.startWordSeq].startMs && s.endMs == words[s.endWordSeq].endMs
    && Spells(s.text, words[s.startWordSeq..s.endWordSeq + 1])
  }

  lemma SentenceSaysItsWords(words: seq<Word>, result: seq<Sentence>, cuts: seq<nat>, k: nat)
    requires SentencesAt(result, words, cuts) && k < |result|
    ensures result[k].startWordSeq == cuts[k] && result[k].endWordSeq + 1 == cuts[k + 1] && Says(result[k], words)
  {
    assert cuts[k] < cuts[k + 1] && result[k] == SentenceOf(words, cuts[k], cuts[k + 1]);
    JoinedTextSpells(words[cuts[k]..cuts[k + 1]]);
  }

  // Every word is in exactly one sentence, in order, and every sentence says its words.
  lemma SentencesSayAllWords(words: seq<Word>, result: seq<Sentence>)
    requires AllowedSplit(result, words)
    ensures result == [] <==> words == []
    ensures result != [] ==> result[0].startWordSeq == 0 && result[|result| - 1].endWordSeq == |words| - 1
    ensures forall k :: 0 < k < |result| ==> result[k].startWordSeq == result[k - 1].endWordSeq + 1
    ensures forall k :: 0 <= k < |result| ==> Says(result[k], words)
  {
    var cuts: seq<nat> :| SentencesAt(result, words, cuts) && ValidRuns(cuts, |words|, SentenceRule(words));
    RunsReachEnds(cuts, |words|, SentenceRule(words));
    assert |cuts| == |result| + 1;
    hide Says, SentencesAt, ValidRuns, SentenceRule, AllowedSplit;
    forall k | 0 <= k < |result|
      ensures result[k].startWordSeq == cuts[k] && Says(result[k], words)
      ensures result[k].endWordSeq + 1 == cuts[k + 1]
    {
      SentenceSaysItsWords(words, result, cuts, k);
    }
    assert words == [] <== result == [];
    if result != [] {
      assert Says(result[0], words);
      WordsAreThere(result[0], words);
    }
  }

  lemma WordsAreThere(s: Sentence, words: seq<Word>)
    requires Says(s, words)
    ensures words != []
  {
  }

  // Inside a sentence nobody else speaks and nothing ends a sentence; and a sentence before another one
  // stops because its last word ends it, because somebody else goes on, or because it is full.
  lemma BreaksAreForced(words: seq<Word>, result: seq<Sentence>, k: nat)
    requires GreedySplit(result, words) && k < |result|
    ensures var from, last := result[k].startWordSeq, result[k].endWordSeq;
      && from <= last < |words| && last - from < 40
      && (forall j :: from <= j < last ==>
            words[j].speaker == words[j + 1].speaker && !IsTerminal(words[j].text))
      && (k + 1 < |result| ==>
            last + 1 < |words|
            && (IsTerminal(words[last].text) || words[last].speaker != words[last + 1].speaker || last - from == 39))
  {
    var cuts: seq<nat> :| SentencesAt(result, words, cuts) && GreedyRuns(cuts, |words|, SentenceRule(words));
    RunIsAllowed(cuts, |words|, SentenceRule(words), k);
    var from, end := cuts[k], cuts[k + 1];
    assert result[k] == SentenceOf(words, from, end) && OneSentence(words, from, end);
    if k + 1 < |result| {
      assert !OneSentence(words, from, end + 1);
    }
    hide GreedyRuns, SentencesAt, SentenceRule, IsTerminal;
  }
}
