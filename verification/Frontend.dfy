/** `TRTFrontend`: from token durations to trimmed latents, one item or a ragged batch. */
module Frontend {
  import opened Arith
  import opened Nets
  import opened Hygiene
  import opened Alignment

  datatype Config = Config(channels: nat, lengthScale: real, noiseScale: real, maxFrames: nat, minFrames: nat)

  /** What the engines and the random draws supply for one item: per token the exponential of the
      clamped log-duration, the mask, the prior mean and log-deviation; per frame the noise. */
  datatype Item = Item(expDuration: seq<real>, mask: seq<real>, means: seq<Frame>, logs: seq<Frame>,
    noise: int -> Frame)

  ghost predicate WellFormed(cfg: Config, item: Item) {
    && |item.expDuration| == |item.mask| == |item.means| == |item.logs|
    && (forall s :: 0 <= s < |item.mask| ==> item.expDuration[s] > 0.0 && (item.mask[s] == 0.0 || item.mask[s] == 1.0))
    && (forall s :: 0 <= s < |item.mask| ==> |item.means[s]| == cfg.channels && |item.logs[s]| == cfg.channels)
  }

  function Ceil(x: real): int { -((-x).Floor) }

  function TokenFrames(expDuration: real, mask: real, lengthScale: real): nat {
    Max(0, Ceil(expDuration * mask * lengthScale))
  }

  /** Frames per token: rounded up, and none for a masked token. */
  function Durations(cfg: Config, item: Item): (dur: seq<nat>)
    ensures |dur| == |item.expDuration|
  {
    seq(|item.expDuration|, s requires 0 <= s < |item.expDuration| =>
      TokenFrames(item.expDuration[s], Get(item.mask, s), cfg.lengthScale))
  }

  lemma DurationsFollowMask(cfg: Config, item: Item)
    requires WellFormed(cfg, item) && cfg.lengthScale > 0.0
    ensures MaskedTokensAreSilent(Durations(cfg, item), item.mask)
    ensures forall s :: 0 <= s < |item.mask| ==> (Durations(cfg, item)[s] > 0 <==> item.mask[s] == 1.0)
  {
    forall s | 0 <= s < |item.mask| ensures Durations(cfg, item)[s] > 0 <==> item.mask[s] == 1.0 {
      CeilPositive(item.expDuration[s], item.mask[s], cfg.lengthScale);
    }
  }

  lemma CeilPositive(e: real, m: real, scale: real)
    requires e > 0.0 && scale > 0.0 && (m == 0.0 || m == 1.0)
    ensures Ceil(e * m * scale) >= 0 && (TokenFrames(e, m, scale) > 0 <==> m == 1.0)
  {
    if m == 1.0 {
      assert e * m * scale > 0.0;
      assert TokenFrames(e, m, scale) == Ceil(e * m * scale);
    } else {
      assert e * m * scale == 0.0;
    }
  }

  /** The item's own frame count: at least one frame, at most the cap. */
  function Predicted(cfg: Config, item: Item): nat {
    Min(Max(Sum(Durations(cfg, item)), 1), cfg.maxFrames)
  }

  /** The length the batch is built at. */
  function BatchFrames(cfg: Config, items: seq<Item>): nat
    decreases |items|
  {
    if items == [] then 1
    else Max(BatchFrames(cfg, items[..|items| - 1]), Max(1, Min(Predicted(cfg, items[|items| - 1]), cfg.maxFrames)))
  }

  // ---------------------------------------------------------------- the prior

  /** Row `t` of the item's attention in a tensor of any length. */
  function ItemAttention(cfg: Config, item: Item, t: nat): seq<real> {
    AttentionRow(Durations(cfg, item), item.mask, if t < Predicted(cfg, item) then 1.0 else 0.0, t)
  }

  function PriorFrame(cfg: Config, exp: real -> real, item: Item, t: nat): (frame: Frame)
    ensures |frame| == cfg.channels
  {
    Sampled(cfg, exp, MatMulRow(ItemAttention(cfg, item, t), item.means, cfg.channels),
            MatMulRow(ItemAttention(cfg, item, t), item.logs, cfg.channels), item.noise(t))
  }

  function Sampled(cfg: Config, exp: real -> real, mean: Frame, log: Frame, noise: Frame): (frame: Frame)
    ensures |frame| == cfg.channels
  {
    seq(cfg.channels, c => Draw(exp, Get(mean, c), Get(log, c), Get(noise, c), cfg.noiseScale))
  }

  /** One coordinate of the prior sample. */
  function Draw(exp: real -> real, mean: real, log: real, noise: real, scale: real): real {
    mean + noise * exp(log) * scale
  }

  /** The prior of an item in a tensor of `frames` frames, before any mask. */
  function Prior(cfg: Config, exp: real -> real, item: Item, frames: nat): (z: Signal)
    ensures |z| == frames
  {
    seq(frames, t requires 0 <= t => PriorFrame(cfg, exp, item, t))
  }

  /** The token frame `t` of the item expands, or -1. */
  function TokenAt(cfg: Config, item: Item, t: nat): int {
    if t < Predicted(cfg, item) && t < Sum(Durations(cfg, item)) then Expand(Durations(cfg, item))[t] else -1
  }

  /** The tensor form of the expansion is run-length expansion, frame by frame, whatever the
      length of the tensor. */
  lemma PriorIsExpansion(cfg: Config, exp: real -> real, item: Item, t: nat)
    requires WellFormed(cfg, item) && cfg.lengthScale > 0.0
    ensures OneHot(ItemAttention(cfg, item, t), TokenAt(cfg, item, t))
    ensures PriorFrame(cfg, exp, item, t)
      == Sampled(cfg, exp, Selected(item.means, TokenAt(cfg, item, t), cfg.channels),
                 Selected(item.logs, TokenAt(cfg, item, t), cfg.channels), item.noise(t))
  {
    DurationsFollowMask(cfg, item);
    AttentionIsExpansion(Durations(cfg, item), item.mask, if t < Predicted(cfg, item) then 1.0 else 0.0, t);
    MatMulSelects(ItemAttention(cfg, item, t), item.means, TokenAt(cfg, item, t), cfg.channels);
    MatMulSelects(ItemAttention(cfg, item, t), item.logs, TokenAt(cfg, item, t), cfg.channels);
  }

  /** Coordinate by coordinate: the expanded token's mean, plus the noise times the exponential of
      its log-deviation times the noise scale; zero stands in where no token is expanded. */
  lemma PriorCoordinate(cfg: Config, exp: real -> real, item: Item, t: nat, k: int, c: nat)
    requires WellFormed(cfg, item) && cfg.lengthScale > 0.0 && c < cfg.channels && k == TokenAt(cfg, item, t)
    ensures var mean := if 0 <= k < |item.means| then Get(item.means[k], c) else 0.0;
      var log := if 0 <= k < |item.logs| then Get(item.logs[k], c) else 0.0;
      PriorFrame(cfg, exp, item, t)[c] == mean + Get(item.noise(t), c) * exp(log) * cfg.noiseScale
  {
    ExpandedCoordinate(cfg, exp, item, k, item.noise(t), c);
    PriorIsExpansion(cfg, exp, item, t);
  }

  lemma ExpandedCoordinate(cfg: Config, exp: real -> real, item: Item, k: int, noise: Frame, c: nat)
    requires c < cfg.channels
    ensures var mean := if 0 <= k < |item.means| then Get(item.means[k], c) else 0.0;
      var log := if 0 <= k < |item.logs| then Get(item.logs[k], c) else 0.0;
      Sampled(cfg, exp, Selected(item.means, k, cfg.channels), Selected(item.logs, k, cfg.channels), noise)[c]
      == mean + Get(noise, c) * exp(log) * cfg.noiseScale
  {
    var mean, log := Selected(item.means, k, cfg.channels), Selected(item.logs, k, cfg.channels);
    SelectedAt(item.means, k, cfg.channels, c);
    SelectedAt(item.logs, k, cfg.channels, c);
    SampledAt(cfg, exp, mean, log, noise, c, Get(mean, c), Get(log, c), Get(noise, c));
  }

  lemma SampledAt(cfg: Config, exp: real -> real, mean: Frame, log: Frame, noise: Frame, c: nat, m: real, l: real,
      x: real)
    requires c < cfg.channels && m == Get(mean, c) && l == Get(log, c) && x == Get(noise, c)
    ensures Sampled(cfg, exp, mean, log, noise)[c] == m + x * exp(l) * cfg.noiseScale
  {
  }

  lemma SelectedAt(vectors: seq<Frame>, k: int, channels: nat, c: nat)
    requires c < channels
    ensures Get(Selected(vectors, k, channels), c) == if 0 <= k < |vectors| then Get(vectors[k], c) else 0.0
  {
  }

  /** A token's frames in plain arithmetic: the least whole number that is not below its scaled
      duration. */
  lemma DurationIsLeast(cfg: Config, item: Item, s: nat)
    requires WellFormed(cfg, item) && cfg.lengthScale > 0.0 && s < |item.mask|
    ensures var d, x := Durations(cfg, item)[s], item.expDuration[s] * item.mask[s] * cfg.lengthScale;
      x <= d as real < x + 1.0
  {
    CeilPositive(item.expDuration[s], item.mask[s], cfg.lengthScale);
  }

  /** The frames of an item: those of its tokens, but at least one and at most the cap. */
  lemma PredictedIs(cfg: Config, item: Item)
    requires cfg.maxFrames >= 1
    ensures var sum := Sum(Durations(cfg, item));
      && (1 <= sum <= cfg.maxFrames ==> Predicted(cfg, item) == sum)
      && (sum == 0 ==> Predicted(cfg, item) == 1)
      && (sum > cfg.maxFrames ==> Predicted(cfg, item) == cfg.maxFrames)
  {
  }

  /** A batch is no longer than one of its items; `BatchFramesCover` says it covers them all. */
  lemma {:induction false} BatchIsLongest(cfg: Config, items: seq<Item>) returns (i: nat)
    requires items != [] && cfg.maxFrames >= 1
    ensures i < |items| && Predicted(cfg, items[i]) == BatchFrames(cfg, items)
  {
    var front := items[..|items| - 1];
    i := |items| - 1;
    if front != [] && BatchFrames(cfg, front) > Predicted(cfg, items[i]) {
      i := BatchIsLongest(cfg, front);
    }
  }

  /** The flow is never given less than the engine's minimum. */
  lemma FlowInputFits(cfg: Config, exp: real -> real, masked: bool, item: Item, frames: nat)
    ensures |Padded(cfg, exp, masked, item, frames)| == Max(frames, cfg.minFrames)
  {
  }

  /** The tokens of the item's real frames, in order: when any token sounds, exactly the prefix of
      the full expansion that fits the cap, and all of it when nothing is capped. */
  lemma SelectionIsPrefix(cfg: Config, item: Item)
    requires Sum(Durations(cfg, item)) >= 1
    ensures Predicted(cfg, item) <= Sum(Durations(cfg, item))
    ensures seq(Predicted(cfg, item), t requires 0 <= t => TokenAt(cfg, item, t))
      == Expand(Durations(cfg, item))[..Predicted(cfg, item)]
    ensures Sum(Durations(cfg, item)) <= cfg.maxFrames ==>
      Expand(Durations(cfg, item))[..Predicted(cfg, item)] == Expand(Durations(cfg, item))
  {
  }

  // ---------------------------------------------------------------- the flow

  /** The flow's input: the prior, its tail silenced or not, padded to the engine's minimum. */
  function Padded(cfg: Config, exp: real -> real, masked: bool, item: Item, frames: nat): Signal {
    var z := Prior(cfg, exp, item, frames);
    (if masked then RunMask(z, ItemMask(Predicted(cfg, item), frames)) else z)
    + ZeroFrames(Max(0, cfg.minFrames - frames), cfg.channels)
  }

  /** Latents of one item in a tensor of `frames` frames.  `masked` says whether the prior's tail
      is silenced before the flow, as the source does. */
  function ItemLatents(cfg: Config, flow: Net, exp: real -> real, masked: bool, item: Item, frames: nat): Signal {
    var mask := ItemMask(Predicted(cfg, item), frames);
    var short := Max(0, cfg.minFrames - frames);
    var latents := Run(flow, Padded(cfg, exp, masked, item, frames), mask + seq(short, _ => 0.0));
    RunMask(latents[..Min(frames, |latents|)], mask)
  }

  /** The latents of a batch, every item in a tensor as long as the longest. */
  function Batch(cfg: Config, flow: Net, exp: real -> real, masked: bool, items: seq<Item>): (out: seq<Signal>)
    ensures |out| == |items|
  {
    var frames := BatchFrames(cfg, items);
    seq(|items|, i requires 0 <= i < |items| => ItemLatents(cfg, flow, exp, masked, items[i], frames))
  }

  function Solo(cfg: Config, flow: Net, exp: real -> real, masked: bool, item: Item): Signal {
    Batch(cfg, flow, exp, masked, [item])[0]
  }

  lemma {:induction false} BatchFramesCover(cfg: Config, items: seq<Item>, i: nat)
    requires i < |items| && cfg.maxFrames >= 1
    ensures 1 <= Predicted(cfg, items[i]) <= BatchFrames(cfg, items)
  {
    var last := |items| - 1;
    if i < last {
      BatchFramesCover(cfg, items[..last], i);
    }
  }

  /** The item's real frames through the flow with nothing around them. */
  function Alone(cfg: Config, flow: Net, exp: real -> real, item: Item): Signal {
    var n := Predicted(cfg, item);
    Run(flow, Prior(cfg, exp, item, n), ItemMask(n, n))
  }

  /** In a tensor of any length that holds it, an item's latents are its own frames through the
      flow alone, then silence. */
  lemma ItemLatentsAre(cfg: Config, flow: Net, exp: real -> real, masked: bool, item: Item, frames: nat)
    requires Hygienic(flow, masked) && Predicted(cfg, item) <= frames
    ensures |ItemLatents(cfg, flow, exp, masked, item, frames)| == frames
    ensures |Alone(cfg, flow, exp, item)| == Predicted(cfg, item)
    ensures Extends(Alone(cfg, flow, exp, item), ItemLatents(cfg, flow, exp, masked, item, frames))
    ensures SilentFrom(ItemLatents(cfg, flow, exp, masked, item, frames), Predicted(cfg, item))
  {
    var n := Predicted(cfg, item);
    var short := Max(0, cfg.minFrames - frames);
    var y := Padded(cfg, exp, masked, item, frames);
    PriorExtends(cfg, exp, masked, item, frames, short);
    PaddingIsInvisible(flow, masked, Prior(cfg, exp, item, n), y);
    TrimAndMask(Alone(cfg, flow, exp, item), Run(flow, y, ItemMask(n, frames + short)), frames);
    ItemLatentsTrimmed(cfg, flow, exp, masked, item, frames, short);
  }

  lemma ItemLatentsTrimmed(cfg: Config, flow: Net, exp: real -> real, masked: bool, item: Item, frames: nat, short: nat)
    requires Predicted(cfg, item) <= frames && short == Max(0, cfg.minFrames - frames)
    ensures var n := Predicted(cfg, item);
      var latents := Run(flow, Padded(cfg, exp, masked, item, frames), ItemMask(n, frames + short));
      frames <= |latents| ==>
        ItemLatents(cfg, flow, exp, masked, item, frames) == RunMask(latents[..frames], ItemMask(n, frames))
  {
    MaskPadded(Predicted(cfg, item), frames, short);
  }

  lemma MaskPadded(n: nat, frames: nat, short: nat)
    requires n <= frames
    ensures ItemMask(n, frames) + seq(short, _ => 0.0) == ItemMask(n, frames + short)
  {
  }

  lemma PriorExtends(cfg: Config, exp: real -> real, masked: bool, item: Item, frames: nat, short: nat)
    requires Predicted(cfg, item) <= frames
    ensures var n, z := Predicted(cfg, item), Prior(cfg, exp, item, frames);
      var y := (if masked then RunMask(z, ItemMask(n, frames)) else z) + ZeroFrames(short, cfg.channels);
      |y| == frames + short && Extends(Prior(cfg, exp, item, n), y) && (masked ==> SilentFrom(y, n))
  {
    var n, z := Predicted(cfg, item), Prior(cfg, exp, item, frames);
    forall t | 0 <= t < n ensures Scale(1.0, z[t]) == z[t] {
      ScaleOne(z[t]);
    }
  }

  lemma TrimAndMask(x: Signal, latents: Signal, frames: nat)
    requires Extends(x, latents) && |x| <= frames <= |latents|
    ensures Extends(x, RunMask(latents[..frames], ItemMask(|x|, frames)))
    ensures SilentFrom(RunMask(latents[..frames], ItemMask(|x|, frames)), |x|)
  {
    forall t | 0 <= t < |x| ensures Scale(1.0, x[t]) == x[t] {
      ScaleOne(x[t]);
    }
  }

  /** Batching is invisible: in every ragged batch an item's frames are what it gets alone, from
      the same noise, and all later frames are silent.  Alone the item is padded to the engine's
      minimum, in the batch to the longest item; neither is heard.  With the prior's tail masked
      any flow whose convolutions read masked signals will do; without it the first convolution
      that looks at neighbours has to be behind a mask of its own. */
  lemma BatchingIsInvisible(cfg: Config, flow: Net, exp: real -> real, masked: bool, items: seq<Item>, i: nat)
    requires Hygienic(flow, masked) && cfg.maxFrames >= 1 && i < |items|
    ensures |Solo(cfg, flow, exp, masked, items[i])| == Predicted(cfg, items[i])
    ensures Extends(Solo(cfg, flow, exp, masked, items[i]), Batch(cfg, flow, exp, masked, items)[i])
    ensures SilentFrom(Batch(cfg, flow, exp, masked, items)[i], Predicted(cfg, items[i]))
    ensures |Batch(cfg, flow, exp, masked, items)[i]| == BatchFrames(cfg, items)
  {
    var item := items[i];
    BatchFramesCover(cfg, items, i);
    BatchFramesCover(cfg, [item], 0);
    SoloFrames(cfg, item);
    ItemLatentsAre(cfg, flow, exp, masked, item, BatchFrames(cfg, items));
    ItemLatentsAre(cfg, flow, exp, masked, item, BatchFrames(cfg, [item]));
  }

  lemma SoloFrames(cfg: Config, item: Item)
    requires cfg.maxFrames >= 1
    ensures BatchFrames(cfg, [item]) == Predicted(cfg, item)
  {
    assert [item][..0] == [];
  }

  // ---------------------------------------------------------------- without the prior mask

  /** A single convolution that copies the frame to its right. */
  function LookAhead(): Net {
    Conv([[Neuron([[0.0], [0.0], [1.0]], 0.0)]], 3, 1, v => v)
  }

  /** One token of `frames` frames with zero mean, unit deviation and unit noise. */
  function Hiss(frames: nat): Item {
    Item([frames as real], [1.0], [[0.0]], [[0.0]], _ => [1.0])
  }

  lemma LookAheadAt(y: Signal, t: nat)
    requires t < |y|
    ensures RunConv(LookAhead(), y)[t] == [Get(At(y, t + 1), 0)]
  {
    var weights, taps := [[0.0], [0.0], [1.0]], Receptive(y, t, 3, 1);
    DotOne(0.0, taps[0]);
    DotOne(0.0, taps[1]);
    DotOne(1.0, taps[2]);
    assert taps[1..][0] == taps[1] && taps[1..][1..][0] == taps[2] == At(y, t + 1);
    assert weights[1..][1..] == [[1.0]];
    assert Mix(weights[1..][1..], taps[1..][1..]) == Get(At(y, t + 1), 0);
    assert Mix(weights[1..], taps[1..]) == Get(At(y, t + 1), 0);
    assert Mix(weights, taps) == Get(At(y, t + 1), 0);
  }

  lemma DotOne(w: real, x: Frame)
    ensures Dot([w], x) == w * Get(x, 0)
  {
    assert [w][..0] == [];
  }

  lemma HissPrior(cfg: Config, exp: real -> real, frames: nat, t: nat)
    requires cfg.channels == 1 && cfg.lengthScale == cfg.noiseScale == 1.0 && exp(0.0) == 1.0
    requires 1 <= frames <= cfg.maxFrames
    ensures Predicted(cfg, Hiss(frames)) == frames && WellFormed(cfg, Hiss(frames))
    ensures PriorFrame(cfg, exp, Hiss(frames), t) == [1.0]
  {
    var item := Hiss(frames);
    assert TokenFrames(frames as real, 1.0, 1.0) == frames;
    assert Durations(cfg, item) == [frames];
    assert [frames][..0] == [] && Sum([frames]) == Sum([]) + frames;
    PriorIsExpansion(cfg, exp, item, t);
    assert Selected(item.means, TokenAt(cfg, item, t), 1) == [0.0] == Selected(item.logs, TokenAt(cfg, item, t), 1);
    var frame := Sampled(cfg, exp, [0.0], [0.0], item.noise(t));
    assert frame[0] == Draw(exp, 0.0, 0.0, 1.0, 1.0) == 1.0;
  }

  /** The mask on the prior is needed: without it a flow of one ordinary convolution, batched
      with a longer item, puts noise from the padding into a frame that is played. */
  lemma WithoutPriorMaskBatchingLeaks(cfg: Config, exp: real -> real, frames: nat)
    requires cfg.channels == 1 && cfg.lengthScale == cfg.noiseScale == 1.0 && exp(0.0) == 1.0
    requires 1 < frames <= cfg.maxFrames
    ensures Hygienic(LookAhead(), true)
    ensures Solo(cfg, LookAhead(), exp, false, Hiss(1)) == [[0.0]]
    ensures |Batch(cfg, LookAhead(), exp, false, [Hiss(1), Hiss(frames)])[0]| == frames
    ensures Batch(cfg, LookAhead(), exp, false, [Hiss(1), Hiss(frames)])[0][0] == [1.0]
  {
    HissPrior(cfg, exp, 1, 0);
    SoloFrames(cfg, Hiss(1));
    HissLatents(cfg, exp, 1);
    PairFrames(cfg, exp, frames);
    HissLatents(cfg, exp, frames);
  }

  lemma PairFrames(cfg: Config, exp: real -> real, frames: nat)
    requires cfg.channels == 1 && cfg.lengthScale == cfg.noiseScale == 1.0 && exp(0.0) == 1.0
    requires 1 < frames <= cfg.maxFrames
    ensures BatchFrames(cfg, [Hiss(1), Hiss(frames)]) == frames
  {
    HissPrior(cfg, exp, 1, 0);
    HissPrior(cfg, exp, frames, 0);
    SoloFrames(cfg, Hiss(1));
    assert [Hiss(1), Hiss(frames)][..1] == [Hiss(1)];
  }

  lemma HissLatents(cfg: Config, exp: real -> real, frames: nat)
    requires cfg.channels == 1 && cfg.lengthScale == cfg.noiseScale == 1.0 && exp(0.0) == 1.0
    requires 1 <= frames && 1 <= cfg.maxFrames
    ensures |ItemLatents(cfg, LookAhead(), exp, false, Hiss(1), frames)| == frames
    ensures ItemLatents(cfg, LookAhead(), exp, false, Hiss(1), frames)[0] == [if frames > 1 then 1.0 else 0.0]
  {
    var short := Max(0, cfg.minFrames - frames);
    var y := Prior(cfg, exp, Hiss(1), frames) + ZeroFrames(short, 1);
    HissPrior(cfg, exp, 1, 0);
    HissPrior(cfg, exp, 1, 1);
    LookAheadAt(y, 0);
    ScaleOne(RunConv(LookAhead(), y)[0]);
  }
}
