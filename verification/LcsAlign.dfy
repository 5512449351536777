/**
 * The word alignment of the breakdown evaluator: a table of suffix LCS lengths,
 * filled in place, and a walk over it that marks one longest common subsequence.
 */
module LcsAlign {

  // Independent definition: s can be obtained from a by deleting elements.
  ghost predicate Subsequence<T>(s: seq<T>, a: seq<T>) {
    s == [] ||
    (a != [] && ((s[0] == a[0] && Subsequence(s[1..], a[1..])) || Subsequence(s, a[1..])))
  }

  ghost predicate CommonSubsequence<T>(s: seq<T>, a: seq<T>, b: seq<T>) {
    Subsequence(s, a) && Subsequence(s, b)
  }

  // The recurrence behind the table.
  ghost function LcsLength<T>(a: seq<T>, b: seq<T>): nat {
    if a == [] || b == [] then 0
    else if a[0] == b[0] then LcsLength(a[1..], b[1..]) + 1
    else if LcsLength(a[1..], b) >= LcsLength(a, b[1..]) then LcsLength(a[1..], b)
    else LcsLength(a, b[1..])
  }

  lemma {:induction false} DropFirst<T>(s: seq<T>, a: seq<T>)
    requires s != [] && Subsequence(s, a)
    ensures a != [] && Subsequence(s[1..], a[1..]) && Subsequence(s[1..], a)
  {
    if s[0] == a[0] && Subsequence(s[1..], a[1..]) {
    } else {
      DropFirst(s, a[1..]);
    }
  }

  // No common subsequence is longer than the recurrence says.
  lemma {:induction false} LcsLengthIsUpperBound<T>(s: seq<T>, a: seq<T>, b: seq<T>)
    requires CommonSubsequence(s, a, b)
    ensures |s| <= LcsLength(a, b)
    decreases |a| + |b|
  {
    if s == [] {
    } else if a[0] == b[0] {
      DropFirst(s, a);
      DropFirst(s, b);
      LcsLengthIsUpperBound(s[1..], a[1..], b[1..]);
    } else if Subsequence(s, a[1..]) {
      LcsLengthIsUpperBound(s, a[1..], b);
    } else {
      LcsLengthIsUpperBound(s, a, b[1..]);
    }
  }

  // The elements of a whose mark is set, in order.
  function Marked<T>(a: seq<T>, marks: seq<bool>): seq<T>
    requires |a| == |marks|
  {
    if a == [] then []
    else if marks[0] then [a[0]] + Marked(a[1..], marks[1..])
    else Marked(a[1..], marks[1..])
  }

  function Unmarked<T>(a: seq<T>, marks: seq<bool>): seq<T>
    requires |a| == |marks|
  {
    if a == [] then []
    else if marks[0] then Unmarked(a[1..], marks[1..])
    else [a[0]] + Unmarked(a[1..], marks[1..])
  }

  lemma {:induction false} MarkedIsSubsequence<T>(a: seq<T>, marks: seq<bool>)
    requires |a| == |marks|
    ensures Subsequence(Marked(a, marks), a)
    ensures |Marked(a, marks)| + |Unmarked(a, marks)| == |a|
  {
    if a != [] {
      MarkedIsSubsequence(a[1..], marks[1..]);
    }
  }

  lemma {:induction false} MarkedSnoc<T>(a: seq<T>, marks: seq<bool>, x: T, mark: bool)
    requires |a| == |marks|
    ensures Marked(a + [x], marks + [mark]) == Marked(a, marks) + (if mark then [x] else [])
  {
    if a == [] {
    } else {
      assert (a + [x])[1..] == a[1..] + [x];
      assert (marks + [mark])[1..] == marks[1..] + [mark];
      MarkedSnoc(a[1..], marks[1..], x, mark);
    }
  }

  lemma {:induction false} MarkedNone<T>(a: seq<T>, marks: seq<bool>)
    requires |a| == |marks| && forall k :: 0 <= k < |marks| ==> !marks[k]
    ensures Marked(a, marks) == []
  {
    if a != [] {
      MarkedNone(a[1..], marks[1..]);
    }
  }

  lemma {:induction false} MarkedSplit<T>(a: seq<T>, marks: seq<bool>, i: nat)
    requires |a| == |marks| && i <= |a|
    ensures Marked(a, marks) == Marked(a[..i], marks[..i]) + Marked(a[i..], marks[i..])
  {
    if i == 0 {
      assert a[0..] == a && marks[0..] == marks;
    } else {
      MarkedSplit(a[1..], marks[1..], i - 1);
      assert a[..i][1..] == a[1..][..i - 1] && marks[..i][1..] == marks[1..][..i - 1];
      assert a[i..] == a[1..][i - 1..] && marks[i..] == marks[1..][i - 1..];
    }
  }

  // What the alignment promises: both mark lists select the same sequence, and no
  // common subsequence of a and b is longer.
  ghost predicate OptimalAlignment<T(!new)>(a: seq<T>, b: seq<T>, inA: seq<bool>, inB: seq<bool>, n: nat) {
    && |inA| == |a| && |inB| == |b|
    && Marked(a, inA) == Marked(b, inB)
    && |Marked(a, inA)| == n
    && forall s: seq<T> :: CommonSubsequence(s, a, b) ==> |s| <= n
  }

  // The evaluator reports the unmarked words as skipped and extra ones.
  lemma {:induction false} SkippedAndExtraCounts<T(!new)>(a: seq<T>, b: seq<T>, inA: seq<bool>, inB: seq<bool>, n: nat)
    requires OptimalAlignment(a, b, inA, inB, n)
    ensures CommonSubsequence(Marked(a, inA), a, b)
    ensures |Unmarked(a, inA)| == |a| - n && |Unmarked(b, inB)| == |b| - n
    ensures n == LcsLength(a, b)
  {
    MarkedIsSubsequence(a, inA);
    MarkedIsSubsequence(b, inB);
    LcsLengthIsUpperBound(Marked(a, inA), a, b);
    var s := LongestWitness(a, b);
  }

  lemma {:induction false} LongestWitness<T>(a: seq<T>, b: seq<T>) returns (s: seq<T>)
    ensures CommonSubsequence(s, a, b) && |s| == LcsLength(a, b)
    decreases |a| + |b|
  {
    if a == [] || b == [] {
      s := [];
    } else if a[0] == b[0] {
      var t := LongestWitness(a[1..], b[1..]);
      s := [a[0]] + t;
      assert s[1..] == t;
    } else if LcsLength(a[1..], b) >= LcsLength(a, b[1..]) {
      s := LongestWitness(a[1..], b);
    } else {
      s := LongestWitness(a, b[1..]);
    }
  }

  method FillTable<T(==)>(a: seq<T>, b: seq<T>, dp: array2<nat>)
    requires dp.Length0 == |a| + 1 && dp.Length1 == |b| + 1
    requires forall i, j :: 0 <= i <= |a| && 0 <= j <= |b| ==> dp[i, j] == 0
    modifies dp
    ensures forall i, j :: 0 <= i <= |a| && 0 <= j <= |b| ==> dp[i, j] == LcsLength(a[i..], b[j..])
  {
    for i := |a| downto 0
      invariant forall i', j :: i <= i' <= |a| && 0 <= j <= |b| ==> dp[i', j] == LcsLength(a[i'..], b[j..])
      invariant forall i' :: 0 <= i' <= |a| ==> dp[i', |b|] == 0
    {
      for j := |b| downto 0
        invariant forall i', j' :: i < i' <= |a| && 0 <= j' <= |b| ==> dp[i', j'] == LcsLength(a[i'..], b[j'..])
        invariant forall j' :: j <= j' <= |b| ==> dp[i, j'] == LcsLength(a[i..], b[j'..])
        invariant forall i' :: 0 <= i' <= |a| ==> dp[i', |b|] == 0
      {
        assert a[i..][1..] == a[i + 1..] && b[j..][1..] == b[j + 1..];
        if a[i] == b[j] {
          dp[i, j] := dp[i + 1, j + 1] + 1;
        } else {
          dp[i, j] := if dp[i + 1, j] >= dp[i, j + 1] then dp[i + 1, j] else dp[i, j + 1];
        }
      }
    }
  }

  lemma MarkedStep<T>(a: seq<T>, marks: seq<bool>, i: nat, mark: bool)
    requires |a| == |marks| && i < |a|
    ensures Marked(a[..i + 1], marks[i := mark][..i + 1])
         == Marked(a[..i], marks[..i]) + (if mark then [a[i]] else [])
  {
    assert a[..i + 1] == a[..i] + [a[i]];
    assert marks[i := mark][..i + 1] == marks[..i] + [mark];
    MarkedSnoc(a[..i], marks[..i], a[i], mark);
  }

  lemma {:induction false} MarkedPrefixOnly<T>(a: seq<T>, marks: seq<bool>, i: nat)
    requires |a| == |marks| && i <= |a|
    requires forall k :: i <= k < |a| ==> !marks[k]
    ensures Marked(a, marks) == Marked(a[..i], marks[..i])
  {
    MarkedSplit(a, marks, i);
    MarkedNone(a[i..], marks[i..]);
  }

  // The walk has looked at a[..i] and b[..j]; the table still knows what the rest is worth.
  ghost predicate WalkedTo<T>(a: seq<T>, b: seq<T>, marksA: seq<bool>, marksB: seq<bool>, i: nat, j: nat) {
    && |marksA| == |a| && |marksB| == |b| && i <= |a| && j <= |b|
    && (forall k :: i <= k < |a| ==> !marksA[k])
    && (forall k :: j <= k < |b| ==> !marksB[k])
    && Marked(a[..i], marksA[..i]) == Marked(b[..j], marksB[..j])
    && |Marked(a[..i], marksA[..i])| + LcsLength(a[i..], b[j..]) == LcsLength(a, b)
  }

  lemma WalkStep<T>(a: seq<T>, b: seq<T>, marksA: seq<bool>, marksB: seq<bool>, i: nat, j: nat)
    requires WalkedTo(a, b, marksA, marksB, i, j) && i < |a| && j < |b|
    ensures a[i] == b[j] ==> WalkedTo(a, b, marksA[i := true], marksB[j := true], i + 1, j + 1)
    ensures a[i] != b[j] ==>
      if LcsLength(a[i + 1..], b[j..]) >= LcsLength(a[i..], b[j + 1..])
      then WalkedTo(a, b, marksA, marksB, i + 1, j)
      else WalkedTo(a, b, marksA, marksB, i, j + 1)
  {
    assert a[i..][1..] == a[i + 1..] && b[j..][1..] == b[j + 1..];
    if a[i] == b[j] {
      MarkedStep(a, marksA, i, true);
      MarkedStep(b, marksB, j, true);
    } else {
      assert marksA[i := false] == marksA && marksB[j := false] == marksB;
      MarkedStep(a, marksA, i, false);
      MarkedStep(b, marksB, j, false);
    }
  }

  lemma {:induction false} WalkDone<T(!new)>(a: seq<T>, b: seq<T>, marksA: seq<bool>, marksB: seq<bool>, i: nat, j: nat)
    requires WalkedTo(a, b, marksA, marksB, i, j) && (i == |a| || j == |b|)
    ensures OptimalAlignment(a, b, marksA, marksB, LcsLength(a, b))
  {
    MarkedPrefixOnly(a, marksA, i);
    MarkedPrefixOnly(b, marksB, j);
    forall s: seq<T> | CommonSubsequence(s, a, b) ensures |s| <= LcsLength(a, b) {
      LcsLengthIsUpperBound(s, a, b);
    }
  }

  lemma WalkStart<T>(a: seq<T>, b: seq<T>, marksA: seq<bool>, marksB: seq<bool>)
    requires |marksA| == |a| && |marksB| == |b|
    requires (forall k :: 0 <= k < |a| ==> !marksA[k]) && (forall k :: 0 <= k < |b| ==> !marksB[k])
    ensures WalkedTo(a, b, marksA, marksB, 0, 0) && a[0..] == a && b[0..] == b
  {
  }

  ghost predicate Filled<T>(a: seq<T>, b: seq<T>, dp: array2<nat>)
    reads dp
  {
    && dp.Length0 == |a| + 1 && dp.Length1 == |b| + 1
    && forall i, j :: 0 <= i <= |a| && 0 <= j <= |b| ==> dp[i, j] == LcsLength(a[i..], b[j..])
  }

  // Follows the table and marks the elements it matches.
  method TraceBack<T(==,!new)>(a: seq<T>, b: seq<T>, dp: array2<nat>, inA: array<bool>, inB: array<bool>)
    requires Filled(a, b, dp) && inA != inB
    requires WalkedTo(a, b, inA[..], inB[..], 0, 0)
    modifies inA, inB
    ensures inA.Length == |a| && inB.Length == |b|
    ensures OptimalAlignment(a, b, inA[..], inB[..], LcsLength(a, b))
  {
    assert inA.Length == |inA[..]| == |a| && inB.Length == |inB[..]| == |b|;
    var i, j := 0, 0;
    hide WalkedTo, LcsLength, OptimalAlignment;
    while i < |a| && j < |b|
      invariant i <= |a| && j <= |b|
      invariant WalkedTo(a, b, inA[..], inB[..], i, j)
      decreases |a| - i + |b| - j
    {
      ghost var marksA, marksB := inA[..], inB[..];
      WalkStep(a, b, marksA, marksB, i, j);
      if a[i] == b[j] {
        inA[i], inB[j] := true, true;
        assert inA[..] == marksA[i := true] && inB[..] == marksB[j := true];
        i, j := i + 1, j + 1;
      } else if dp[i + 1, j] >= dp[i, j + 1] {
        i := i + 1;
      } else {
        j := j + 1;
      }
    }
    WalkDone(a, b, inA[..], inB[..], i, j);
  }

  method Align<T(==,!new)>(a: seq<T>, b: seq<T>) returns (marksA: seq<bool>, marksB: seq<bool>, n: nat)
    ensures OptimalAlignment(a, b, marksA, marksB, n)
  {
    var dp := new nat[|a| + 1, |b| + 1]((_, _) => 0);
    FillTable(a, b, dp);
    var inA := new bool[|a|](_ => false);
    var inB := new bool[|b|](_ => false);
    WalkStart(a, b, inA[..], inB[..]);
    hide WalkedTo, LcsLength, OptimalAlignment;
    TraceBack(a, b, dp, inA, inB);
    marksA, marksB, n := inA[..], inB[..], dp[0, 0];
  }
}
