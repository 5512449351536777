/** How accepted pieces are grouped into fragments: the collector's decisions as values. */
module Packing {
  import opened AudioPieces

  // A fragment is closed once it reaches maxFrames, or before a speech gap of at least gapFrames.
  datatype Params = Params(maxFrames: int, gapFrames: int)

  datatype State = State(done: seq<seq<Piece>>, open: seq<Piece>)

  ghost function Last<T>(s: seq<T>): T
    requires s != []
  {
    s[|s| - 1]
  }

  ghost function CloseBeforeGap(st: State, p: Piece, params: Params): State {
    if st.open != [] && p.speechStart - Last(st.open).speechEnd >= params.gapFrames
    then State(st.done + [st.open], [])
    else st
  }

  ghost function CloseIfFull(st: State, params: Params): State {
    if Frames(st.open) >= params.maxFrames then State(st.done + [st.open], []) else st
  }

  ghost function Add(st: State, p: Piece, params: Params): State {
    var ready := CloseBeforeGap(st, p, params);
    CloseIfFull(State(ready.done, ready.open + [p]), params)
  }

  ghost function AddAll(pieces: seq<Piece>, params: Params): State {
    if pieces == [] then State([], []) else Add(AddAll(pieces[..|pieces| - 1], params), Last(pieces), params)
  }

  ghost function Finish(st: State): seq<seq<Piece>> {
    if st.open == [] then st.done else st.done + [st.open]
  }

  // The groups of pieces that become the fragments.
  ghost function Pack(pieces: seq<Piece>, params: Params): seq<seq<Piece>> {
    Finish(AddAll(pieces, params))
  }

  // ---- An independent description of where the cuts fall ----

  // p may follow g in the same group: g is not full yet and the gap is not long.
  ghost predicate Continues(g: seq<Piece>, p: Piece, params: Params)
    requires g != []
  {
    Frames(g) < params.maxFrames && p.speechStart - Last(g).speechEnd < params.gapFrames
  }

  // Every piece of the group but the first may follow the ones before it.
  ghost predicate Joined(g: seq<Piece>, params: Params) {
    |g| <= 1 || (Joined(g[..|g| - 1], params) && Continues(g[..|g| - 1], Last(g), params))
  }

  // Between two groups: the first is full, or the gap is long.
  ghost predicate Cut(g: seq<Piece>, h: seq<Piece>, params: Params)
    requires g != [] && h != []
  {
    !Continues(g, h[0], params)
  }

  ghost predicate CutExactly(groups: seq<seq<Piece>>, params: Params) {
    && (forall i :: 0 <= i < |groups| ==> groups[i] != [] && Joined(groups[i], params))
    && (forall i, j :: 0 <= i < j < |groups| && j == i + 1 ==> Cut(groups[i], groups[j], params))
  }

  ghost predicate GoodState(st: State, params: Params) {
    && CutExactly(st.done, params)
    && Joined(st.open, params)
    && (st.open != [] ==> Frames(st.open) < params.maxFrames)
    && (st.done != [] ==>
      if st.open == [] then Frames(Last(st.done)) >= params.maxFrames
      else Cut(Last(st.done), st.open, params))
  }

  lemma {:induction false} JoinedSnoc(g: seq<Piece>, p: Piece, params: Params)
    requires Joined(g, params) && (g != [] ==> Continues(g, p, params))
    ensures Joined(g + [p], params)
  {
    assert (g + [p])[..|g|] == g;
  }

  lemma {:induction false} JoinedAt(g: seq<Piece>, k: nat, params: Params)
    requires Joined(g, params) && 0 < k < |g|
    ensures Continues(g[..k], g[k], params)
  {
    if k < |g| - 1 {
      assert g[..|g| - 1][..k] == g[..k];
      JoinedAt(g[..|g| - 1], k, params);
    }
  }

  lemma {:induction false} CutSnoc(groups: seq<seq<Piece>>, g: seq<Piece>, params: Params)
    requires CutExactly(groups, params) && g != [] && Joined(g, params)
    requires groups != [] ==> Cut(Last(groups), g, params)
    ensures CutExactly(groups + [g], params)
  {
  }

  // What is known once the piece p is about to be added.
  ghost predicate Ready(st: State, p: Piece, params: Params) {
    && CutExactly(st.done, params) && Joined(st.open, params)
    && (st.open != [] ==> Continues(st.open, p, params))
    && (st.done != [] ==> Cut(Last(st.done), st.open + [p], params))
  }

  lemma CloseMakesReady(st: State, p: Piece, params: Params)
    requires GoodState(st, params)
    ensures Ready(CloseBeforeGap(st, p, params), p, params)
    ensures var ready := CloseBeforeGap(st, p, params);
      Flatten(ready.done) + ready.open == Flatten(st.done) + st.open
  {
    hide Frames, Flatten, CutExactly;
    FlattenSnoc(st.done, st.open);
    if st.open != [] {
      CutSnocIfAny(st, params);
    }
    assert st.open != [] ==> (st.open + [p])[0] == st.open[0];
  }

  lemma CutSnocIfAny(st: State, params: Params)
    requires GoodState(st, params) && st.open != []
    ensures CutExactly(st.done + [st.open], params)
  {
    CutSnoc(st.done, st.open, params);
  }

  lemma FillKeepsGood(ready: State, p: Piece, params: Params)
    requires Ready(ready, p, params)
    ensures var next := CloseIfFull(State(ready.done, ready.open + [p]), params);
      GoodState(next, params)
      && Flatten(next.done) + next.open == Flatten(ready.done) + (ready.open + [p])
  {
    hide Frames, Flatten, CutExactly;
    JoinedSnoc(ready.open, p, params);
    FlattenSnoc(ready.done, ready.open + [p]);
    CutSnoc(ready.done, ready.open + [p], params);
  }

  lemma AddKeepsGood(st: State, p: Piece, params: Params)
    requires GoodState(st, params)
    ensures GoodState(Add(st, p, params), params)
    ensures Flatten(Add(st, p, params).done) + Add(st, p, params).open == (Flatten(st.done) + st.open) + [p]
  {
    hide Frames, Joined, Flatten, CutExactly;
    var ready := CloseBeforeGap(st, p, params);
    CloseMakesReady(st, p, params);
    FillKeepsGood(ready, p, params);
    assert Flatten(ready.done) + (ready.open + [p]) == (Flatten(ready.done) + ready.open) + [p];
  }

  lemma NothingAddedIsGood(params: Params)
    ensures GoodState(State([], []), params) && Flatten<Piece>([]) + [] == []
  {
  }

  lemma {:induction false} AddAllGood(pieces: seq<Piece>, params: Params)
    ensures GoodState(AddAll(pieces, params), params)
    ensures Flatten(AddAll(pieces, params).done) + AddAll(pieces, params).open == pieces
  {
    hide Add, Flatten, GoodState, CutExactly;
    if pieces == [] {
      NothingAddedIsGood(params);
    } else {
      var init := pieces[..|pieces| - 1];
      AddAllGood(init, params);
      var st := AddAll(init, params);
      assert AddAll(pieces, params) == Add(st, Last(pieces), params);
      hide AddAll;
      AddKeepsGood(st, Last(pieces), params);
      assert pieces == init + [Last(pieces)];
    }
  }

  // The fragments are the accepted pieces in order, cut exactly at full fragments and long gaps.
  lemma PackCutsExactly(pieces: seq<Piece>, params: Params)
    ensures Flatten(Pack(pieces, params)) == pieces
    ensures CutExactly(Pack(pieces, params), params)
  {
    hide AddAll, Frames, Joined, Flatten, CutExactly;
    AddAllGood(pieces, params);
    var st := AddAll(pieces, params);
    FlattenSnoc(st.done, st.open);
    if st.open != [] {
      CutSnocIfAny(st, params);
    }
  }

  // These cuts are the only possible ones: the description determines the fragments.
  lemma {:induction false} CutsAreUnique(g: seq<seq<Piece>>, h: seq<seq<Piece>>, params: Params)
    requires CutExactly(g, params) && CutExactly(h, params)
    requires Flatten(g) == Flatten(h)
    ensures g == h
  {
    if g != [] && h != [] {
      FirstGroupNotShorter(g, h, params);
      FirstGroupNotShorter(h, g, params);
      assert g[0] == Flatten(g)[..|g[0]|] && h[0] == Flatten(h)[..|h[0]|];
      assert Flatten(g[1..]) == Flatten(g)[|g[0]|..] && Flatten(h[1..]) == Flatten(h)[|h[0]|..];
      CutsAreUnique(g[1..], h[1..], params);
    }
  }

  lemma {:induction false} FirstGroupNotShorter(g: seq<seq<Piece>>, h: seq<seq<Piece>>, params: Params)
    requires CutExactly(g, params) && CutExactly(h, params)
    requires g != [] && h != [] && Flatten(g) == Flatten(h)
    ensures |g[0]| >= |h[0]|
  {
    var n := |g[0]|;
    assert g[0] == Flatten(g)[..n] && h[0] == Flatten(h)[..|h[0]|];
    assert if |g| > 1 then Flatten(g)[n] == Flatten(g[1..])[0] == g[1][0] else Flatten(g) == g[0];
    assert forall k :: 0 <= k < |h[0]| ==> h[0][k] == Flatten(h)[k];
    var m := if n < |h[0]| then n else |h[0]|;
    assert h[0][..m] == g[0][..m] && g[0][..n] == g[0];
    if n < |h[0]| {
      JoinedAt(h[0], n, params);
    }
  }
}
