/** Long texts in windows: split, mean-pool padded batches, weight by token count.  One coordinate
  * of the vectors; the coordinates are pooled independently. */
module Pooling {

  type Tokens = seq<int>

  /** A text without tokens is given one. */
  function AtLeastOne(ids: Tokens): Tokens { if ids == [] then [0] else ids }

  function WindowsOf(ids: Tokens, window: nat): seq<Tokens>
    requires window > 0
  {
    if ids == [] then [] else if |ids| <= window then [ids] else [ids[..window]] + WindowsOf(ids[window..], window)
  }

  /** A window with the text it belongs to. */
  datatype Piece = Piece(owner: nat, tokens: Tokens)

  function Owned(owner: nat, windows: seq<Tokens>): seq<Piece> { seq(|windows|, i requires 0 <= i < |windows| => Piece(owner, windows[i])) }

  function Pieces(texts: seq<Tokens>, window: nat): seq<Piece>
    requires window > 0
  {
    if texts == [] then [] else
      Pieces(texts[..|texts| - 1], window) + Owned(|texts| - 1, WindowsOf(AtLeastOne(texts[|texts| - 1]), window))
  }

  ghost predicate Lists(windows: seq<Tokens>, owner: seq<nat>, weights: seq<nat>, pieces: seq<Piece>) {
    && |windows| == |owner| == |weights| == |pieces|
    && forall i :: 0 <= i < |pieces| ==> pieces[i] == Piece(owner[i], windows[i]) && weights[i] == |windows[i]|
  }

  /** `_split_windows`. */
  method SplitWindows(texts: seq<Tokens>, window: nat) returns (windows: seq<Tokens>, owner: seq<nat>, weights: seq<nat>)
    requires window > 0
    ensures Lists(windows, owner, weights, Pieces(texts, window))
  {
    hide WindowsOf, AtLeastOne;
    windows, owner, weights := [], [], [];
    for ti := 0 to |texts|
      invariant Lists(windows, owner, weights, Pieces(texts[..ti], window))
    {
      var w, o, n := SplitText(AtLeastOne(texts[ti]), ti, window);
      windows, owner, weights := windows + w, owner + o, weights + n;
      assert texts[..ti + 1][..ti] == texts[..ti];
    }
    assert texts[..|texts|] == texts;
  }

  /** The inner loop: the windows of one text. */
  method SplitText(ids: Tokens, ti: nat, window: nat) returns (windows: seq<Tokens>, owner: seq<nat>, weights: seq<nat>)
    requires window > 0
    ensures windows == WindowsOf(ids, window) && Lists(windows, owner, weights, Owned(ti, windows))
  {
    hide WindowsOf;
    windows, owner, weights := [], [], [];
    var j := 0;
    while j < |ids|
      invariant j <= |ids| && Lists(windows, owner, weights, Owned(ti, windows))
      invariant windows + WindowsOf(ids[j..], window) == WindowsOf(ids, window)
    {
      var end := if j + window <= |ids| then j + window else |ids|;
      var w := ids[j..end];
      FirstWindow(ids[j..], window, end - j);
      assert ids[j..][..end - j] == w && ids[j..][end - j..] == ids[end..];
      assert windows + ([w] + WindowsOf(ids[end..], window)) == windows + [w] + WindowsOf(ids[end..], window);
      windows, owner, weights := windows + [w], owner + [ti], weights + [|w|];
      j := end;
    }
    NoWindows(window);
    assert ids[j..] == [] && windows + [] == windows;
  }

  lemma NoWindows(window: nat)
    requires window > 0
    ensures WindowsOf([], window) == []
  {
  }

  lemma FirstWindow(ids: Tokens, window: nat, k: nat)
    requires window > 0 && ids != [] && k == if window <= |ids| then window else |ids|
    ensures WindowsOf(ids, window) == [ids[..k]] + WindowsOf(ids[k..], window)
  {
    if |ids| <= window { assert ids[..k] == ids && ids[k..] == []; }
  }

  // ----- mean pooling of padded batches -----

  function Sum(s: seq<real>): real { if s == [] then 0.0 else Sum(s[..|s| - 1]) + s[|s| - 1] }

  function Mean(s: seq<real>): real { if s == [] then 0.0 else Sum(s) / |s| as real }

  /** The vectors of a window's tokens. */
  function Values(f: (Tokens, nat) -> real, w: Tokens): seq<real> { seq(|w|, j requires 0 <= j < |w| => f(w, j)) }

  function Pad(w: Tokens, n: nat): Tokens { if |w| >= n then w else w + seq(n - |w|, i => 0) }

  function MaskOf(w: Tokens, n: nat): Tokens { if |w| >= n then seq(|w|, i => 1) else seq(|w|, i => 1) + seq(n - |w|, i => 0) }

  function PadAll(batch: seq<Tokens>, n: nat): seq<Tokens> { seq(|batch|, k requires 0 <= k < |batch| => Pad(batch[k], n)) }

  function MaskAll(batch: seq<Tokens>, n: nat): seq<Tokens> { seq(|batch|, k requires 0 <= k < |batch| => MaskOf(batch[k], n)) }

  /** What the network returns for token `j` of row `k`. */
  type Network = (seq<Tokens>, seq<Tokens>, nat, nat) -> real

  /** The network attends to no masked token: a real token's vector depends on its window alone.
    * Nothing is said about the vectors of the padding. */
  ghost predicate IgnoresPadding(net: Network, f: (Tokens, nat) -> real) {
    forall batch: seq<Tokens>, n: nat, k: nat, j: nat :: k < |batch| && j < |batch[k]| && (forall w :: w in batch ==> |w| <= n) ==>
      net(PadAll(batch, n), MaskAll(batch, n), k, j) == f(batch[k], j)
  }

  method LongestOf(batch: seq<Tokens>) returns (n: nat)
    ensures forall w :: w in batch ==> |w| <= n
  {
    n := 0;
    for k := 0 to |batch|
      invariant forall i :: 0 <= i < k ==> |batch[i]| <= n
    {
      if |batch[k]| > n { n := |batch[k]|; }
    }
  }

  method PoolBatch(net: Network, ghost f: (Tokens, nat) -> real, batch: seq<Tokens>) returns (pooled: seq<real>)
    requires IgnoresPadding(net, f) && forall w :: w in batch ==> w != []
    ensures |pooled| == |batch| && forall k :: 0 <= k < |batch| ==> pooled[k] == Mean(Values(f, batch[k]))
  {
    var n := LongestOf(batch);
    var inputIds, mask := PadAll(batch, n), MaskAll(batch, n);
    pooled := [];
    for k := 0 to |batch|
      invariant |pooled| == k && forall i :: 0 <= i < k ==> pooled[i] == Mean(Values(f, batch[i]))
    {
      var total, count := MaskedSum(net, f, inputIds, mask, k, n, batch);
      pooled := pooled + [total / (if count < 1 then 1 else count) as real];
    }
  }

  /** `(token_embs * mask).sum` and `mask.sum` of one row. */
  method MaskedSum(net: Network, ghost f: (Tokens, nat) -> real, inputIds: seq<Tokens>, mask: seq<Tokens>, k: nat, n: nat, ghost batch: seq<Tokens>)
      returns (total: real, count: int)
    requires IgnoresPadding(net, f) && k < |batch| && inputIds == PadAll(batch, n) && mask == MaskAll(batch, n)
    requires forall w :: w in batch ==> |w| <= n
    ensures total == Sum(Values(f, batch[k])) && count == |batch[k]|
  {
    hide PadAll, MaskAll, Values, Sum, IgnoresPadding;
    total, count := 0.0, 0;
    ghost var v := Values(f, batch[k]);
    LengthOfValues(f, batch[k]);
    SumOfNothing();
    MaskShape(batch, n, k);
    assert v[..0] == [];
    for j := 0 to n
      invariant total == Sum(v[..if j < |v| then j else |v|]) && count == if j < |v| then j else |v|
    {
      var x, m := net(inputIds, mask, k, j), mask[k][j];
      assert m == if j < |v| then 1 else 0;
      if j < |v| {
        RealToken(net, f, batch, n, k, j);
        SumOfPrefix(v, j);
        assert x * m as real == x;
      } else {
        assert x * m as real == 0.0;
      }
      total := total + x * m as real;
      count := count + m;
    }
    assert v[..|v|] == v;
  }

  lemma SumOfNothing()
    ensures Sum([]) == 0.0
  {
  }

  lemma SumOfPrefix(v: seq<real>, j: nat)
    requires j < |v|
    ensures Sum(v[..j + 1]) == Sum(v[..j]) + v[j]
  {
    assert v[..j + 1][..j] == v[..j];
  }

  lemma MaskShape(batch: seq<Tokens>, n: nat, k: nat)
    requires k < |batch| && |batch[k]| <= n
    ensures |MaskAll(batch, n)| == |batch| && |MaskAll(batch, n)[k]| == n
    ensures forall j :: 0 <= j < n ==> MaskAll(batch, n)[k][j] == if j < |batch[k]| then 1 else 0
  {
  }

  lemma RealToken(net: Network, f: (Tokens, nat) -> real, batch: seq<Tokens>, n: nat, k: nat, j: nat)
    requires IgnoresPadding(net, f) && k < |batch| && j < |batch[k]| && forall w :: w in batch ==> |w| <= n
    ensures |Values(f, batch[k])| == |batch[k]| && net(PadAll(batch, n), MaskAll(batch, n), k, j) == Values(f, batch[k])[j]
  {
  }

  /** Inference over all windows, `batchSize` at a time. */
  method PoolWindows(net: Network, ghost f: (Tokens, nat) -> real, windows: seq<Tokens>, batchSize: nat) returns (pooled: seq<real>)
    requires IgnoresPadding(net, f) && batchSize > 0 && forall w :: w in windows ==> w != []
    ensures |pooled| == |windows| && forall i :: 0 <= i < |windows| ==> pooled[i] == Mean(Values(f, windows[i]))
  {
    hide IgnoresPadding, Values, Mean;
    pooled := [];
    var i := 0;
    while i < |windows|
      invariant i <= |windows| && |pooled| == i && forall a :: 0 <= a < i ==> pooled[a] == Mean(Values(f, windows[a]))
    {
      var end := if i + batchSize <= |windows| then i + batchSize else |windows|;
      forall w | w in windows[i..end] ensures w != [] { assert w in windows; }
      var part := PoolBatch(net, f, windows[i..end]);
      forall a | i <= a < end ensures part[a - i] == Mean(Values(f, windows[a])) { assert windows[i..end][a - i] == windows[a]; }
      pooled := pooled + part;
      i := end;
    }
  }

  // ----- weighting by token count -----

  function Contribution(x: real, p: Piece): real { x * |p.tokens| as real }

  /** The weighted sum, and the weight, of the pieces of text `ti`. */
  function WeightedSum(pieces: seq<Piece>, pooled: seq<real>, ti: nat): real
    requires |pooled| == |pieces|
  {
    if pieces == [] then 0.0 else
      var k := |pieces| - 1;
      WeightedSum(pieces[..k], pooled[..k], ti) + if pieces[k].owner == ti then Contribution(pooled[k], pieces[k]) else 0.0
  }

  function Weight(pieces: seq<Piece>, ti: nat): nat {
    if pieces == [] then 0 else
      Weight(pieces[..|pieces| - 1], ti) + if pieces[|pieces| - 1].owner == ti then |pieces[|pieces| - 1].tokens| else 0
  }

  /** `_weighted_pool_windows`. */
  method WeightedPool(pooled: seq<real>, owner: seq<nat>, weights: seq<nat>, texts: nat, ghost windows: seq<Tokens>, ghost pieces: seq<Piece>)
      returns (out: seq<real>)
    requires Lists(windows, owner, weights, pieces) && |pooled| == |pieces|
    ensures |out| == texts
    ensures forall ti :: 0 <= ti < texts ==> out[ti] == if Weight(pieces, ti) > 0 then WeightedSum(pieces, pooled, ti) / Weight(pieces, ti) as real else 0.0
  {
    out := [];
    for ti := 0 to texts
      invariant |out| == ti
      invariant forall a :: 0 <= a < ti ==> out[a] == if Weight(pieces, a) > 0 then WeightedSum(pieces, pooled, a) / Weight(pieces, a) as real else 0.0
    {
      var sum, wsum := 0.0, 0;
      for i := 0 to |owner|
        invariant sum == WeightedSum(pieces[..i], pooled[..i], ti) && wsum == Weight(pieces[..i], ti)
      {
        assert pieces[..i + 1][..i] == pieces[..i] && pooled[..i + 1][..i] == pooled[..i];
        if owner[i] == ti { sum, wsum := sum + pooled[i] * weights[i] as real, wsum + weights[i]; }
      }
      assert pieces[..|pieces|] == pieces && pooled[..|pieces|] == pooled;
      out := out + [if wsum > 0 then sum / wsum as real else 0.0];
    }
  }

  // ----- the whole is one flat mean -----

  /** The vectors of all tokens of a text, window after window. */
  function TokenValues(f: (Tokens, nat) -> real, windows: seq<Tokens>): seq<real> {
    if windows == [] then [] else TokenValues(f, windows[..|windows| - 1]) + Values(f, windows[|windows| - 1])
  }

  lemma {:induction false} SumOfBoth(s: seq<real>, t: seq<real>)
    ensures Sum(s + t) == Sum(s) + Sum(t)
  {
    if t == [] {
      assert s + t == s;
    } else {
      SumOfBoth(s, t[..|t| - 1]);
      assert (s + t)[..|s + t| - 1] == s + t[..|t| - 1];
    }
  }

  lemma MeanContributesSum(f: (Tokens, nat) -> real, p: Piece)
    ensures Contribution(Mean(Values(f, p.tokens)), p) == Sum(Values(f, p.tokens))
  {
  }

  /** Pieces of other texts add nothing. */
  lemma {:induction false} OthersAddNothing(pieces: seq<Piece>, owner: nat, windows: seq<Tokens>, pooled: seq<real>, ti: nat)
    requires |pooled| == |pieces| + |windows| && owner != ti
    ensures WeightedSum(pieces + Owned(owner, windows), pooled, ti) == WeightedSum(pieces, pooled[..|pieces|], ti)
    ensures Weight(pieces + Owned(owner, windows), ti) == Weight(pieces, ti)
  {
    var all := pieces + Owned(owner, windows);
    if windows == [] {
      assert all == pieces && pooled[..|pieces|] == pooled;
    } else {
      var front := windows[..|windows| - 1];
      OthersAddNothing(pieces, owner, front, pooled[..|pooled| - 1], ti);
      assert all[..|all| - 1] == pieces + Owned(owner, front);
      assert pooled[..|pooled| - 1][..|pieces|] == pooled[..|pieces|];
    }
  }

  /** A text's own pieces, weighted, add up to all its tokens. */
  lemma {:induction false} OwnAddTokens(f: (Tokens, nat) -> real, pieces: seq<Piece>, windows: seq<Tokens>, pooled: seq<real>, ti: nat)
    requires |pooled| == |pieces| + |windows| && forall i :: 0 <= i < |pieces| ==> pieces[i].owner != ti
    requires forall i :: 0 <= i < |windows| ==> pooled[|pieces| + i] == Mean(Values(f, windows[i]))
    ensures WeightedSum(pieces + Owned(ti, windows), pooled, ti) == Sum(TokenValues(f, windows))
    ensures Weight(pieces + Owned(ti, windows), ti) == |TokenValues(f, windows)|
  {
    hide Mean, Values, Sum, Contribution;
    SumOfNothing();
    var all := pieces + Owned(ti, windows);
    if windows == [] {
      assert all == pieces && pooled[..|pieces|] == pooled;
      NoneOwned(pieces, pooled, ti);
    } else {
      var front, w := windows[..|windows| - 1], windows[|windows| - 1];
      OwnAddTokens(f, pieces, front, pooled[..|pooled| - 1], ti);
      assert all[..|all| - 1] == pieces + Owned(ti, front);
      MeanContributesSum(f, Piece(ti, w));
      LengthOfValues(f, w);
      SumOfBoth(TokenValues(f, front), Values(f, w));
    }
  }

  lemma LengthOfValues(f: (Tokens, nat) -> real, w: Tokens)
    ensures |Values(f, w)| == |w|
  {
  }

  lemma {:induction false} NoneOwned(pieces: seq<Piece>, pooled: seq<real>, ti: nat)
    requires |pooled| == |pieces| && forall i :: 0 <= i < |pieces| ==> pieces[i].owner != ti
    ensures WeightedSum(pieces, pooled, ti) == 0.0 && Weight(pieces, ti) == 0
  {
    if pieces != [] { NoneOwned(pieces[..|pieces| - 1], pooled[..|pieces| - 1], ti); }
  }

  lemma {:induction false} OwnersAreEarlier(texts: seq<Tokens>, window: nat)
    requires window > 0
    ensures forall i :: 0 <= i < |Pieces(texts, window)| ==> Pieces(texts, window)[i].owner < |texts|
  {
    if texts != [] { OwnersAreEarlier(texts[..|texts| - 1], window); }
  }

  /** Together the windows are the text; the last one has between one and `window` tokens, the others
    * have `window`. */
  lemma {:induction false} WindowsCoverText(ids: Tokens, window: nat)
    requires window > 0
    ensures Joined(WindowsOf(ids, window)) == ids
    ensures forall w :: w in WindowsOf(ids, window) ==> 0 < |w| <= window
    ensures forall i :: 0 <= i < |WindowsOf(ids, window)| - 1 ==> |WindowsOf(ids, window)[i]| == window
  {
    if ids != [] {
      if |ids| <= window {
        assert Joined([ids]) == ids;
      } else {
        WindowsCoverText(ids[window..], window);
        assert ids == ids[..window] + ids[window..];
      }
    }
  }

  function Joined(windows: seq<Tokens>): Tokens { if windows == [] then [] else windows[0] + Joined(windows[1..]) }

  lemma {:induction false} TextPooled(f: (Tokens, nat) -> real, texts: seq<Tokens>, window: nat, pooled: seq<real>, ti: nat)
    requires window > 0 && ti < |texts| && |pooled| == |Pieces(texts, window)|
    requires forall i :: 0 <= i < |pooled| ==> pooled[i] == Mean(Values(f, Pieces(texts, window)[i].tokens))
    ensures var own := TokenValues(f, WindowsOf(AtLeastOne(texts[ti]), window));
      WeightedSum(Pieces(texts, window), pooled, ti) == Sum(own) && Weight(Pieces(texts, window), ti) == |own|
  {
    hide Mean, Values, WindowsOf;
    var last := |texts| - 1;
    var before, windows := Pieces(texts[..last], window), WindowsOf(AtLeastOne(texts[last]), window);
    OwnersAreEarlier(texts[..last], window);
    if ti == last {
      OwnAddTokens(f, before, windows, pooled, ti);
    } else {
      TextPooled(f, texts[..last], window, pooled[..|before|], ti);
      OthersAddNothing(before, last, windows, pooled, ti);
    }
  }

  lemma {:induction false} TokenValuesLength(f: (Tokens, nat) -> real, windows: seq<Tokens>)
    ensures |TokenValues(f, windows)| == |Joined(windows)|
  {
    if windows != [] {
      TokenValuesLength(f, windows[..|windows| - 1]);
      JoinedWithOne(windows[..|windows| - 1], windows[|windows| - 1]);
      assert windows == windows[..|windows| - 1] + [windows[|windows| - 1]];
    }
  }

  lemma {:induction false} JoinedWithOne(windows: seq<Tokens>, w: Tokens)
    ensures Joined(windows + [w]) == Joined(windows) + w
  {
    if windows == [] {
      assert windows + [w] == [w] && Joined([w]) == w;
    } else {
      JoinedWithOne(windows[1..], w);
      assert (windows + [w])[1..] == windows[1..] + [w];
    }
  }

  /** Splitting, pooling and weighting give each text the flat mean of all its token vectors, for
    * every window and batch size. */
  method EmbedTexts(net: Network, ghost f: (Tokens, nat) -> real, texts: seq<Tokens>, window: nat, batchSize: nat) returns (out: seq<real>)
    requires IgnoresPadding(net, f) && window > 0 && batchSize > 0
    ensures |out| == |texts|
    ensures forall ti :: 0 <= ti < |texts| ==> out[ti] == Mean(TokenValues(f, WindowsOf(AtLeastOne(texts[ti]), window)))
    ensures forall ti :: 0 <= ti < |texts| ==> |TokenValues(f, WindowsOf(AtLeastOne(texts[ti]), window))| == |AtLeastOne(texts[ti])|
  {
    hide IgnoresPadding, Values, WindowsOf, Pieces, Joined, WeightedSum, Weight, Sum;
    var windows, owner, weights := SplitWindows(texts, window);
    ghost var pieces := Pieces(texts, window);
    PiecesAreFull(texts, window);
    var pooled := PoolWindows(net, f, windows, batchSize);
    out := WeightedPool(pooled, owner, weights, |texts|, windows, pieces);
    forall ti | 0 <= ti < |texts|
      ensures out[ti] == Mean(TokenValues(f, WindowsOf(AtLeastOne(texts[ti]), window)))
      ensures |TokenValues(f, WindowsOf(AtLeastOne(texts[ti]), window))| == |AtLeastOne(texts[ti])|
    {
      TextPooled(f, texts, window, pooled, ti);
      WindowsCoverText(AtLeastOne(texts[ti]), window);
      TokenValuesLength(f, WindowsOf(AtLeastOne(texts[ti]), window));
    }
  }

  lemma {:induction false} PiecesAreFull(texts: seq<Tokens>, window: nat)
    requires window > 0
    ensures forall i :: 0 <= i < |Pieces(texts, window)| ==> Pieces(texts, window)[i].tokens != []
  {
    if texts != [] {
      PiecesAreFull(texts[..|texts| - 1], window);
      WindowsCoverText(AtLeastOne(texts[|texts| - 1]), window);
    }
  }

  /** A text that fits one window gets the plain mean of that window, whatever the window size; a text
    * without tokens is taken to be the single token 0. */
  lemma OneWindowUnchanged(f: (Tokens, nat) -> real, ids: Tokens, window: nat)
    requires window > 0 && window >= |ids|
    ensures TokenValues(f, WindowsOf(AtLeastOne(ids), window)) == if ids == [] then [f([0], 0)] else Values(f, ids)
  {
    assert Values(f, [0]) == [f([0], 0)];
  }
}
