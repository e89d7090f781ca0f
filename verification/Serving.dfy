/** From a client's tokens to its latents: bucketing, batch padding, the batched front half and
    de-batching, composed. */
module Serving {
  import opened Nets
  import opened Hygiene
  import opened Alignment
  import opened Frontend
  import opened Tokens
  import Debatch

  /** The encoder and duration engines with the random draws of one row, named by a seed. */
  type Engine = (seq<int>, seq<int>, int) -> Item

  /** `b` is `a` with tokens of mask zero added at the end. */
  ghost predicate TokenPadded(a: Item, b: Item) {
    && |a.mask| <= |b.mask| && b.mask[..|a.mask|] == a.mask
    && |a.expDuration| <= |b.expDuration| && b.expDuration[..|a.expDuration|] == a.expDuration
    && |a.means| <= |b.means| && b.means[..|a.means|] == a.means
    && |a.logs| <= |b.logs| && b.logs[..|a.logs|] == a.logs
    && (forall s :: |a.mask| <= s < |b.mask| ==> b.mask[s] == 0.0)
    && b.noise == a.noise
  }

  /** Further tokens, whatever they are, that the mask says are not there. */
  ghost predicate Masked(ids: seq<int>, mask: seq<int>, ids': seq<int>, mask': seq<int>) {
    && |ids| == |mask| <= |ids'| == |mask'| && ids'[..|ids|] == ids && mask'[..|mask|] == mask
    && forall t :: |mask| <= t < |mask'| ==> mask'[t] == 0
  }

  /** The engines honour the mask: tokens of mask zero change nothing about the real ones. */
  ghost predicate HonoursMask(cfg: Config, engine: Engine) {
    forall ids: seq<int>, mask: seq<int>, ids': seq<int>, mask': seq<int>, seed: int ::
      Masked(ids, mask, ids', mask') ==> MaskHonoured(cfg, engine(ids, mask, seed), engine(ids', mask', seed))
  }

  ghost predicate MaskHonoured(cfg: Config, a: Item, b: Item) {
    WellFormed(cfg, a) && WellFormed(cfg, b) && TokenPadded(a, b)
  }

  lemma PaddingIsMasked(ids: seq<int>, mask: seq<int>, n: int)
    requires |ids| == |mask|
    ensures Masked(ids, mask, ZeroPadded(ids, n), ZeroPadded(mask, n))
  {
  }

  // ---------------------------------------------------------------- token padding

  lemma PaddedDurations(cfg: Config, a: Item, b: Item)
    requires WellFormed(cfg, a) && WellFormed(cfg, b) && TokenPadded(a, b) && cfg.lengthScale > 0.0
    ensures Durations(cfg, b) == Durations(cfg, a) + seq(|b.mask| - |a.mask|, _ => 0)
  {
    DurationsFollowMask(cfg, b);
    var d := Durations(cfg, a) + seq(|b.mask| - |a.mask|, _ => 0);
    forall s | 0 <= s < |b.mask| ensures Durations(cfg, b)[s] == d[s] {
      if s < |a.mask| {
        assert b.mask[s] == b.mask[..|a.mask|][s] && b.expDuration[s] == b.expDuration[..|a.mask|][s];
      } else {
        assert b.mask[s] == 0.0;
      }
    }
  }

  /** Padding tokens are invisible to the alignment: they get no duration, the frame count stays
      the same, and so does every expanded mean and deviation. */
  lemma TokenPaddingIsInvisible(cfg: Config, exp: real -> real, a: Item, b: Item)
    requires WellFormed(cfg, a) && WellFormed(cfg, b) && TokenPadded(a, b) && cfg.lengthScale > 0.0
    ensures Predicted(cfg, b) == Predicted(cfg, a)
    ensures forall t: nat :: TokenAt(cfg, b, t) == TokenAt(cfg, a, t)
    ensures forall t: nat :: PriorFrame(cfg, exp, b, t) == PriorFrame(cfg, exp, a, t)
  {
    PaddedDurations(cfg, a, b);
    ExpandSilentTokens(Durations(cfg, a), |b.mask| - |a.mask|);
    forall t: nat
      ensures TokenAt(cfg, b, t) == TokenAt(cfg, a, t) && PriorFrame(cfg, exp, b, t) == PriorFrame(cfg, exp, a, t)
    {
      SamePriorFrame(cfg, exp, a, b, t);
    }
  }

  lemma SamePriorFrame(cfg: Config, exp: real -> real, a: Item, b: Item, t: nat)
    requires WellFormed(cfg, a) && WellFormed(cfg, b) && TokenPadded(a, b) && cfg.lengthScale > 0.0
    requires TokenAt(cfg, b, t) == TokenAt(cfg, a, t)
    ensures PriorFrame(cfg, exp, b, t) == PriorFrame(cfg, exp, a, t)
  {
    PriorIsExpansion(cfg, exp, a, t);
    PriorIsExpansion(cfg, exp, b, t);
    var k := TokenAt(cfg, a, t);
    ExpandBelow(Durations(cfg, a));
    if k >= 0 {
      assert k in Expand(Durations(cfg, a));
      assert b.means[k] == b.means[..|a.means|][k] && b.logs[k] == b.logs[..|a.logs|][k];
    }
  }

  lemma PaddedLatents(cfg: Config, flow: Net, exp: real -> real, a: Item, b: Item, frames: nat)
    requires WellFormed(cfg, a) && WellFormed(cfg, b) && TokenPadded(a, b) && cfg.lengthScale > 0.0
    ensures ItemLatents(cfg, flow, exp, true, b, frames) == ItemLatents(cfg, flow, exp, true, a, frames)
  {
    TokenPaddingIsInvisible(cfg, exp, a, b);
    assert Prior(cfg, exp, b, frames) == Prior(cfg, exp, a, frames);
  }

  lemma PaddedSolo(cfg: Config, flow: Net, exp: real -> real, a: Item, b: Item)
    requires WellFormed(cfg, a) && WellFormed(cfg, b) && TokenPadded(a, b) && cfg.lengthScale > 0.0
      && cfg.maxFrames >= 1
    ensures Solo(cfg, flow, exp, true, b) == Solo(cfg, flow, exp, true, a)
  {
    TokenPaddingIsInvisible(cfg, exp, a, b);
    SoloFrames(cfg, a);
    SoloFrames(cfg, b);
    PaddedLatents(cfg, flow, exp, a, b, Predicted(cfg, a));
  }

  // ---------------------------------------------------------------- the fused call

  function Encode(engine: Engine, ids: seq<int>, mask: seq<int>, seed: int): Item {
    engine(ids, mask, seed)
  }

  /** The items of a fused call: row `i` of the tensors, with draws of its own. */
  function Items(engine: Engine, ids: seq<seq<int>>, mask: seq<seq<int>>, seeds: seq<int>): seq<Item>
    requires |ids| == |mask| == |seeds|
  {
    seq(|ids|, i requires 0 <= i < |ids| => Encode(engine, ids[i], mask[i], seeds[i]))
  }

  /** The requests of a group: one row of tokens each, padded by the client to some bucket. */
  ghost predicate Grouped(requests: seq<Debatch.Request>, tokens: seq<seq<int>>, masks: seq<seq<int>>,
      buckets: seq<int>) {
    && |requests| == |tokens| == |masks| == |buckets|
    && forall i :: 0 <= i < |requests| ==>
      && |tokens[i]| == |masks[i]| <= buckets[i]
      && requests[i] == Debatch.Request([ZeroPadded(tokens[i], buckets[i])],
        Debatch.Present([ZeroPadded(masks[i], buckets[i])]))
  }

  lemma GroupedRow(requests: seq<Debatch.Request>, tokens: seq<seq<int>>, masks: seq<seq<int>>, buckets: seq<int>,
      i: nat)
    requires Grouped(requests, tokens, masks, buckets) && i < |requests|
    ensures |Debatch.FusedIds(requests, Debatch.Longest(requests))|
      == |Debatch.FusedMask(requests, Debatch.Longest(requests))| == |requests|
    ensures Debatch.FusedIds(requests, Debatch.Longest(requests))[i] == ZeroPadded(tokens[i], Debatch.Longest(requests))
    ensures Debatch.FusedMask(requests, Debatch.Longest(requests))[i] == ZeroPadded(masks[i], Debatch.Longest(requests))
  {
    var n := Debatch.Longest(requests);
    Debatch.FusedLength(requests, n);
    Debatch.OwnRowIffSingleRows(requests, |requests|);
    Debatch.OwnRowIffSingleRows(requests, i);
    Debatch.FusedRowIs(requests, n, i, 0);
    Debatch.LongestCovers(requests, i);
    PadTwice(tokens[i], buckets[i], n);
    PadTwice(masks[i], buckets[i], n);
  }

  /** The latents of the fused call for a group of requests. */
  function GroupLatents(cfg: Config, flow: Net, exp: real -> real, engine: Engine, requests: seq<Debatch.Request>,
      seeds: seq<int>): seq<Signal>
    requires |Debatch.FusedIds(requests, Debatch.Longest(requests))|
      == |Debatch.FusedMask(requests, Debatch.Longest(requests))| == |seeds|
  {
    var n := Debatch.Longest(requests);
    Batch(cfg, flow, exp, true, Items(engine, Debatch.FusedIds(requests, n), Debatch.FusedMask(requests, n), seeds))
  }

  /** Being served in a group is invisible.  Bucketed by the client, padded to the longest request,
      batched, masked, run through the flow, trimmed and taken apart, a request gets the response
      its bare tokens would get alone from the same draws, if and only if its latents have a frame
      that is not silent or it is as long as the batch. */
  lemma GroupIsInvisible(cfg: Config, flow: Net, exp: real -> real, engine: Engine,
      requests: seq<Debatch.Request>, tokens: seq<seq<int>>, masks: seq<seq<int>>, buckets: seq<int>, seeds: seq<int>,
      i: nat)
    requires Hygienic(flow, true) && cfg.maxFrames >= 1 && cfg.lengthScale > 0.0 && HonoursMask(cfg, engine)
    requires Grouped(requests, tokens, masks, buckets) && |seeds| == |requests| && i < |requests|
    ensures |Debatch.FusedIds(requests, Debatch.Longest(requests))|
      == |Debatch.FusedMask(requests, Debatch.Longest(requests))| == |seeds|
    ensures |GroupLatents(cfg, flow, exp, engine, requests, seeds)| == |requests|
    ensures var z, x := GroupLatents(cfg, flow, exp, engine, requests, seeds)[i],
      Solo(cfg, flow, exp, true, Encode(engine, tokens[i], masks[i], seeds[i]));
      && |x| > 0 && |z| > 0
      && (Debatch.ResponseOf(z) == Debatch.ResponseOf(x) <==> !SilentFrom(x, 0) || |x| == |z|)
  {
    var n := Debatch.Longest(requests);
    GroupedRow(requests, tokens, masks, buckets, i);
    var items := Items(engine, Debatch.FusedIds(requests, n), Debatch.FusedMask(requests, n), seeds);
    var bare := Encode(engine, tokens[i], masks[i], seeds[i]);
    PaddingIsMasked(tokens[i], masks[i], n);
    assert MaskHonoured(cfg, bare, engine(ZeroPadded(tokens[i], n), ZeroPadded(masks[i], n), seeds[i]));
    assert items[i] == Encode(engine, ZeroPadded(tokens[i], n), ZeroPadded(masks[i], n), seeds[i]);
    PaddedSolo(cfg, flow, exp, bare, items[i]);
    BatchingIsInvisible(cfg, flow, exp, true, items, i);
    BatchFramesCover(cfg, items, i);
    Debatch.TrimRecoversItem(Solo(cfg, flow, exp, true, bare), Batch(cfg, flow, exp, true, items)[i]);
  }
}
