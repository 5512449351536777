/**
 * Splitting 0..n into consecutive runs, given by their boundaries, and why taking every
 * run as long as possible needs the fewest runs.
 */
module Runs {
  // A run [from, end) is allowed or not.
  type Rule = (nat, nat) -> bool

  ghost predicate Boundaries(cuts: seq<nat>, n: nat) {
    && cuts != [] && cuts[0] == 0 && cuts[|cuts| - 1] == n
    && forall k, l :: 0 <= k < l < |cuts| && l == k + 1 ==> cuts[k] < cuts[l]
  }

  // A partition of 0..n into allowed runs.
  ghost predicate ValidRuns(cuts: seq<nat>, n: nat, allowed: Rule) {
    && Boundaries(cuts, n)
    && forall k, l :: 0 <= k < l < |cuts| && l == k + 1 ==> allowed(cuts[k], cuts[l])
  }

  // Every run but the last is maximal: one element more would not be allowed.
  ghost predicate GreedyRuns(cuts: seq<nat>, n: nat, allowed: Rule) {
    && ValidRuns(cuts, n, allowed)
    && forall k, l :: 0 <= k < l < |cuts| - 1 && l == k + 1 ==> !allowed(cuts[k], cuts[l] + 1)
  }

  // A part of an allowed run is allowed.
  ghost predicate Hereditary(n: nat, allowed: Rule) {
    forall i, j, k, l :: 0 <= i <= j < k <= l <= n && allowed(i, l) ==> allowed(j, k)
  }

  lemma {:induction false} BoundariesGrow(cuts: seq<nat>, n: nat, k: nat, l: nat)
    requires Boundaries(cuts, n) && k <= l < |cuts|
    ensures cuts[k] <= cuts[l] && (k < l ==> cuts[k] < cuts[l])
    decreases l - k
  {
    if k < l {
      BoundariesGrow(cuts, n, k, l - 1);
      assert cuts[l - 1] < cuts[l];
    }
  }

  // Greedy boundaries are never behind those of another valid partition.
  lemma {:induction false} GreedyStaysAhead(greedy: seq<nat>, other: seq<nat>, n: nat, allowed: Rule, k: nat)
    requires GreedyRuns(greedy, n, allowed) && ValidRuns(other, n, allowed) && Hereditary(n, allowed)
    requires k < |greedy| && k < |other|
    ensures other[k] <= greedy[k]
  {
    if k > 0 {
      GreedyStaysAhead(greedy, other, n, allowed, k - 1);
      BoundariesGrow(other, n, k, |other| - 1);
      assert greedy[k - 1] < greedy[k] && allowed(other[k - 1], other[k]);
      if k < |greedy| - 1 {
        assert !allowed(greedy[k - 1], greedy[k] + 1);
      }
    }
  }

  // No valid partition has fewer runs.
  lemma GreedyIsMinimal(greedy: seq<nat>, other: seq<nat>, n: nat, allowed: Rule)
    requires GreedyRuns(greedy, n, allowed) && ValidRuns(other, n, allowed) && Hereditary(n, allowed)
    ensures |greedy| <= |other|
  {
    if |other| < |greedy| {
      GreedyStaysAhead(greedy, other, n, allowed, |other| - 1);
      BoundariesGrow(greedy, n, |other| - 1, |greedy| - 1);
    }
  }

  // There is only one way to be greedy.
  lemma GreedyIsUnique(a: seq<nat>, b: seq<nat>, n: nat, allowed: Rule)
    requires GreedyRuns(a, n, allowed) && GreedyRuns(b, n, allowed) && Hereditary(n, allowed)
    ensures a == b
  {
    GreedyIsMinimal(a, b, n, allowed);
    GreedyIsMinimal(b, a, n, allowed);
    forall k: nat | k < |a| ensures a[k] == b[k] {
      GreedyStaysAhead(a, b, n, allowed, k);
      GreedyStaysAhead(b, a, n, allowed, k);
    }
  }

  // One more run in front of the end.
  lemma RunAdded(cuts: seq<nat>, n: nat, end: nat, allowed: Rule)
    requires GreedyRuns(cuts, n, allowed) && n < end && allowed(n, end)
    requires |cuts| > 1 ==> !allowed(cuts[|cuts| - 2], n + 1)
    ensures GreedyRuns(cuts + [end], end, allowed)
  {
  }

  lemma RunsReachEnds(cuts: seq<nat>, n: nat, allowed: Rule)
    requires ValidRuns(cuts, n, allowed)
    ensures cuts != [] && cuts[0] == 0 && cuts[|cuts| - 1] == n
  {
  }

  lemma RunIsAllowed(cuts: seq<nat>, n: nat, allowed: Rule, k: nat)
    requires GreedyRuns(cuts, n, allowed) && k + 1 < |cuts|
    ensures cuts[k] < cuts[k + 1] <= n && allowed(cuts[k], cuts[k + 1])
    ensures k + 2 < |cuts| ==> cuts[k + 1] < n && !allowed(cuts[k], cuts[k + 1] + 1)
  {
    BoundariesGrow(cuts, n, k + 1, |cuts| - 1);
  }
}
