/** Convolutional networks over sequences of latent frames.

    A network is an expression built from dilated convolutions with bias and a pointwise
    nonlinearity, upsampling convolutions, residual sums, gated products and masks.  The
    decoder and the flow of the repository are engines of this shape. */
module Nets {
  import opened Arith

  type Frame = seq<real>
  type Signal = seq<Frame>

  /** One output channel: a weight vector per tap and a bias. */
  datatype Neuron = Neuron(weights: seq<seq<real>>, bias: real)

  datatype Net =
    | Skip
    // One list of neurons per output phase.  A single phase is an ordinary convolution; `u`
    // phases are an upsampling (transposed) convolution of stride `u` in polyphase form.
    | Conv(phases: seq<seq<Neuron>>, taps: nat, dilation: nat, act: real -> real)
    | Then(first: Net, second: Net)
    | Add(left: Net, right: Net)
    | Gate(left: Net, right: Net)
    // Multiplies by the padding mask.
    | Mask

  // ---------------------------------------------------------------- frames

  function Get(x: Frame, c: int): real {
    if 0 <= c < |x| then x[c] else 0.0
  }

  /** The frame at `t`; off either edge a convolution reads zero. */
  function At(x: Signal, t: int): Frame {
    if 0 <= t < |x| then x[t] else []
  }

  datatype Op = Plus | Times

  function Combine(op: Op, a: Frame, b: Frame): Frame {
    seq(Max(|a|, |b|), c => if op.Plus? then Get(a, c) + Get(b, c) else Get(a, c) * Get(b, c))
  }

  function Scale(k: real, x: Frame): Frame {
    seq(|x|, c requires 0 <= c < |x| => k * x[c])
  }

  /** `n` silent frames, none when `n` is negative. */
  function ZeroFrames(n: int, channels: nat): Signal {
    seq(Max(0, n), _ => seq(channels, _ => 0.0))
  }

  // ---------------------------------------------------------------- evaluation

  function Dot(w: seq<real>, x: Frame): real {
    if |w| == 0 then 0.0 else Dot(w[..|w| - 1], x) + w[|w| - 1] * Get(x, |w| - 1)
  }

  function Mix(weights: seq<seq<real>>, taps: seq<Frame>): real {
    if weights == [] || taps == [] then 0.0
    else Dot(weights[0], taps[0]) + Mix(weights[1..], taps[1..])
  }

  /** The frames a centred kernel of `taps` taps reads around position `t`. */
  function Receptive(x: Signal, t: int, taps: nat, dilation: nat): seq<Frame> {
    seq(taps, k => At(x, t + (k - taps / 2) * dilation))
  }

  function Emit(neurons: seq<Neuron>, act: real -> real, taps: seq<Frame>): Frame {
    seq(|neurons|, o requires 0 <= o < |neurons| => act(neurons[o].bias + Mix(neurons[o].weights, taps)))
  }

  function RunConv(net: Net, x: Signal): (y: Signal)
    requires net.Conv?
    ensures |y| == |net.phases| * |x|
  {
    seq(|net.phases| * |x|, n requires 0 <= n < |net.phases| * |x| =>
      Emit(net.phases[n % |net.phases|], net.act, Receptive(x, n / |net.phases|, net.taps, net.dilation)))
  }

  function RunMask(x: Signal, mask: seq<real>): (y: Signal)
    ensures |y| == |x|
  {
    seq(|x|, t requires 0 <= t < |x| => Scale(Get(mask, t), x[t]))
  }

  function Pairwise(op: Op, u: Signal, v: Signal): (y: Signal)
    ensures |y| == |u|
  {
    seq(|u|, t requires 0 <= t < |u| => Combine(op, u[t], At(v, t)))
  }

  /** Output frames per input frame. */
  function Up(net: Net): nat {
    match net
    case Skip => 1
    case Mask => 1
    case Conv(phases, _, _, _) => |phases|
    case Then(a, b) => Up(a) * Up(b)
    case Add(a, _) => Up(a)
    case Gate(a, _) => Up(a)
  }

  /** Evaluates the network; `mask` holds one factor per input frame. */
  function Run(net: Net, x: Signal, mask: seq<real>): Signal {
    match net
    case Skip => x
    case Mask => RunMask(x, mask)
    case Conv(_, _, _, _) => RunConv(net, x)
    case Then(a, b) => Run(b, Run(a, x, mask), Stretch(mask, Up(a)))
    case Add(a, b) => Pairwise(Plus, Run(a, x, mask), Run(b, x, mask))
    case Gate(a, b) => Pairwise(Times, Run(a, x, mask), Run(b, x, mask))
  }

  /** The mask at the rate a stage with `u` outputs per frame leaves the signal at. */
  function Stretch(mask: seq<real>, u: nat): (r: seq<real>)
  {
    seq(u * |mask|, n requires 0 <= n < u * |mask| => Get(mask, n / u))
  }

  lemma {:induction false} RunLength(net: Net, x: Signal, mask: seq<real>)
    ensures |Run(net, x, mask)| == Up(net) * |x|
  {
    match net
    case Skip =>
    case Mask =>
    case Conv(_, _, _, _) =>
    case Then(a, b) =>
      RunLength(a, x, mask);
      RunLength(b, Run(a, x, mask), Stretch(mask, Up(a)));
      Associate(Up(b), Up(a), |x|);
    case Add(a, b) => RunLength(a, x, mask);
    case Gate(a, b) => RunLength(a, x, mask);
  }

  // ---------------------------------------------------------------- well-formedness, radius

  ghost predicate Valid(net: Net) {
    match net
    case Skip => true
    case Mask => true
    case Conv(phases, _, _, _) => |phases| > 0
    case Then(a, b) => Valid(a) && Valid(b)
    case Add(a, b) => Valid(a) && Valid(b) && Up(a) == Up(b)
    case Gate(a, b) => Valid(a) && Valid(b) && Up(a) == Up(b)
  }

  /** Receptive-field radius in input frames.  Along a stack radii add, the second one
      converted from its own rate back to input frames. */
  function Radius(net: Net): nat {
    match net
    case Skip => 0
    case Mask => 0
    case Conv(_, taps, dilation, _) => (taps / 2) * dilation
    case Then(a, b) => Radius(a) + CeilDiv(Radius(b), Up(a))
    case Add(a, b) => Max(Radius(a), Radius(b))
    case Gate(a, b) => Max(Radius(a), Radius(b))
  }

  /** A stack of layers, the first one applied first. */
  function Stack(layers: seq<Net>): Net {
    if layers == [] then Skip else Then(layers[0], Stack(layers[1..]))
  }

  function SumRadii(layers: seq<Net>): nat {
    if layers == [] then 0 else Radius(layers[0]) + SumRadii(layers[1..])
  }

  /** In a stack of layers that keep the frame rate, the radius is the sum of the layers'. */
  lemma {:induction false} RadiiAdd(layers: seq<Net>)
    requires forall i :: 0 <= i < |layers| ==> Up(layers[i]) == 1
    ensures Radius(Stack(layers)) == SumRadii(layers) && Up(Stack(layers)) == 1
  {
    if layers != [] {
      RadiiAdd(layers[1..]);
    }
  }
}
