/** Greedy grouping of fragments into parts, on the lengths of the fragments. */
module Partition {
  import opened AudioPieces

  const PART_MIN_FRAMES := 7 * 60 * SAMPLE_RATE_KHZ * 1000
  const PARTS_MAX := 10

  ghost function Sum(lens: seq<int>): int {
    if lens == [] then 0 else lens[0] + Sum(lens[1..])
  }

  lemma {:induction false} SumConcat(a: seq<int>, b: seq<int>)
    ensures Sum(a + b) == Sum(a) + Sum(b)
  {
    if a == [] {
      assert a + b == b;
    } else {
      assert (a + b)[1..] == a[1..] + b;
      SumConcat(a[1..], b);
    }
  }

  // How many fragments the next part takes when `acc` frames are already in it.
  ghost function PartCount(lens: seq<int>, acc: int, target: int): (n: nat)
    requires lens != []
    ensures 1 <= n <= |lens|
  {
    if |lens| == 1 || acc + lens[0] >= target then 1 else 1 + PartCount(lens[1..], acc + lens[0], target)
  }

  // The items split into parts, item i having length lens[i].
  ghost function Parts<T>(items: seq<T>, lens: seq<int>, target: int): seq<seq<T>>
    requires |items| == |lens|
  {
    if items == [] then []
    else
      var n := PartCount(lens, 0, target);
      [items[..n]] + Parts(items[n..], lens[n..], target)
  }

  // Full enough unless it is the last part, and not full before its last fragment.
  ghost predicate GoodPart(part: seq<int>, last: bool, target: int) {
    && part != []
    && (last || Sum(part) >= target)
    && (|part| == 1 || Sum(part[..|part| - 1]) < target)
  }

  lemma {:induction false} PartCountGood(lens: seq<int>, acc: int, target: int)
    requires lens != []
    ensures var n := PartCount(lens, acc, target);
      (n == |lens| || acc + Sum(lens[..n]) >= target)
      && (n == 1 || acc + Sum(lens[..n - 1]) < target)
  {
    var n := PartCount(lens, acc, target);
    assert Sum(lens[..1]) == lens[0] + Sum(lens[..1][1..]) == lens[0];
    if n > 1 {
      PartCountGood(lens[1..], acc + lens[0], target);
      assert lens[..n][1..] == lens[1..][..n - 1];
      assert lens[..n - 1][1..] == lens[1..][..n - 2];
    }
  }

  lemma {:induction false} PartsPartition<T>(items: seq<T>, lens: seq<int>, target: int)
    requires |items| == |lens|
    ensures Flatten(Parts(items, lens, target)) == items
    ensures forall p :: 0 <= p < |Parts(items, lens, target)| ==> Parts(items, lens, target)[p] != []
  {
    if items != [] {
      var n := PartCount(lens, 0, target);
      PartsPartition(items[n..], lens[n..], target);
      assert items == items[..n] + items[n..];
    }
  }

  ghost predicate GoodParts(parts: seq<seq<int>>, target: int) {
    forall p :: 0 <= p < |parts| ==> GoodPart(parts[p], p == |parts| - 1, target)
  }

  lemma GoodPartsCons(part: seq<int>, rest: seq<seq<int>>, target: int)
    requires GoodPart(part, rest == [], target) && GoodParts(rest, target)
    ensures GoodParts([part] + rest, target)
  {
    var parts := [part] + rest;
    forall p | 0 <= p < |parts| ensures GoodPart(parts[p], p == |parts| - 1, target) {
      if p > 0 {
        assert parts[p] == rest[p - 1];
      }
    }
  }

  lemma {:induction false} PartsGood(lens: seq<int>, target: int)
    ensures GoodParts(Parts(lens, lens, target), target)
  {
    if lens != [] {
      var n := PartCount(lens, 0, target);
      PartCountGood(lens, 0, target);
      PartsGood(lens[n..], target);
      assert lens[..n][..n - 1] == lens[..n - 1];
      assert n == |lens| ==> lens[..n] == lens;
      GoodPartsCons(lens[..n], Parts(lens[n..], lens[n..], target), target);
    }
  }

  // The first parts are full, so together they hold at least target frames each.
  lemma {:induction false} FullPartsSum(parts: seq<seq<int>>, target: int)
    requires GoodParts(parts, target)
    ensures parts != [] ==> Sum(Flatten(parts)) >= (|parts| - 1) * target + Sum(parts[|parts| - 1])
  {
    if |parts| == 1 {
      assert Flatten(parts) == parts[0] + Flatten(parts[1..]) == parts[0];
    } else if parts != [] {
      FullPartsSum(parts[1..], target);
      SumConcat(parts[0], Flatten(parts[1..]));
      assert parts[1..][|parts| - 2] == parts[|parts| - 1];
      assert (|parts| - 1) * target == (|parts| - 2) * target + target;
    }
  }

  ghost function Target(totalFrames: int): int {
    if PART_MIN_FRAMES >= totalFrames / PARTS_MAX then PART_MIN_FRAMES else totalFrames / PARTS_MAX
  }

  // Parts of this length are long enough, and few enough if everything is shared among ten of them.
  ghost predicate IsTarget(frames: int, totalFrames: nat) {
    frames >= PART_MIN_FRAMES && totalFrames < (frames + 1) * PARTS_MAX
  }

  // No smaller length would do.
  lemma TargetIsLeast(totalFrames: nat)
    ensures IsTarget(Target(totalFrames), totalFrames)
    ensures !IsTarget(Target(totalFrames) - 1, totalFrames)
  {
  }

  // At most one part more than the limit, and not even that unless the last part is tiny.
  lemma {:induction false} PartLimit(lens: seq<int>)
    requires forall i :: 0 <= i < |lens| ==> lens[i] >= 0
    ensures var parts := Parts(lens, lens, Target(Sum(lens)));
      |parts| <= PARTS_MAX + 1
      && (parts != [] && Sum(parts[|parts| - 1]) >= PARTS_MAX ==> |parts| <= PARTS_MAX)
  {
    var target := Target(Sum(lens));
    var parts := Parts(lens, lens, target);
    PartsPartition(lens, lens, target);
    PartsGood(lens, target);
    FullPartsSum(parts, target);
    if parts != [] {
      assert Flatten(parts) == lens;
      LastPartNonNegative(parts, lens);
      TimesTarget(|parts| - 1, target);
    }
  }

  lemma TimesTarget(m: int, target: int)
    requires target >= 0
    ensures m > PARTS_MAX ==> m * target >= (PARTS_MAX + 1) * target
    ensures m == PARTS_MAX ==> m * target == PARTS_MAX * target
  {
  }

  lemma {:induction false} LastPartNonNegative(parts: seq<seq<int>>, lens: seq<int>)
    requires parts != [] && Flatten(parts) == lens
    requires forall i :: 0 <= i < |lens| ==> lens[i] >= 0
    ensures Sum(parts[|parts| - 1]) >= 0
  {
    var init, last := parts[..|parts| - 1], parts[|parts| - 1];
    assert parts == init + [last];
    FlattenSnoc(init, last);
    assert forall i :: 0 <= i < |last| ==> last[i] == lens[|Flatten(init)| + i];
    SumNonNegative(last);
  }

  lemma {:induction false} SumNonNegative(lens: seq<int>)
    requires forall i :: 0 <= i < |lens| ==> lens[i] >= 0
    ensures Sum(lens) >= 0
  {
    if lens != [] {
      SumNonNegative(lens[1..]);
    }
  }
}
