/** When does an utterance come out of a network the same inside a longer, padded tensor as it
    does alone?  Exactly the convolutions have to be watched: they must read padding that is
    silent, or read no neighbours at all. */
module Hygiene {
  import opened Arith
  import opened Nets

  ghost predicate Silent(x: Frame) {
    forall c :: 0 <= c < |x| ==> x[c] == 0.0
  }

  /** `y` starts with `x`. */
  ghost predicate Extends(x: Signal, y: Signal) {
    |x| <= |y| && forall t :: 0 <= t < |x| ==> y[t] == x[t]
  }

  ghost predicate SilentFrom(y: Signal, n: nat) {
    forall t :: n <= t < |y| ==> Silent(y[t])
  }

  /** The mask of an item with `n` real frames in a tensor of `len` frames. */
  function ItemMask(n: nat, len: nat): (mask: seq<real>) {
    seq(len, t => if t < n then 1.0 else 0.0)
  }

  /** Whether padding is silent after the network, given whether it is before.  A convolution
      adds a bias, so it never leaves silence; a gate is silent where either side is. */
  predicate CleanAfter(net: Net, clean: bool) {
    match net
    case Skip => clean
    case Mask => true
    case Conv(_, _, _, _) => false
    case Then(a, b) => CleanAfter(b, CleanAfter(a, clean))
    case Add(a, b) => CleanAfter(a, clean) && CleanAfter(b, clean)
    case Gate(a, b) => CleanAfter(a, clean) || CleanAfter(b, clean)
  }

  /** Every convolution that looks at neighbours is fed silent padding, and no stage changes
      the frame rate. */
  predicate Hygienic(net: Net, clean: bool) {
    match net
    case Skip => true
    case Mask => true
    case Conv(phases, taps, dilation, _) => |phases| == 1 && (clean || (taps / 2) * dilation == 0)
    case Then(a, b) => Hygienic(a, clean) && Hygienic(b, CleanAfter(a, clean))
    case Add(a, b) => Hygienic(a, clean) && Hygienic(b, clean)
    case Gate(a, b) => Hygienic(a, clean) && Hygienic(b, clean)
  }

  lemma {:induction false} KeepsRate(net: Net, clean: bool)
    requires Hygienic(net, clean)
    ensures Up(net) == 1
  {
    match net
    case Skip =>
    case Mask =>
    case Conv(_, _, _, _) =>
    case Then(a, b) =>
      KeepsRate(a, clean);
      KeepsRate(b, CleanAfter(a, clean));
    case Add(a, b) => KeepsRate(a, clean);
    case Gate(a, b) => KeepsRate(a, clean);
  }

  lemma HygienicLength(net: Net, clean: bool, x: Signal, mask: seq<real>)
    requires Hygienic(net, clean)
    ensures |Run(net, x, mask)| == |x|
  {
    KeepsRate(net, clean);
    RunLength(net, x, mask);
  }

  // ---------------------------------------------------------------- convolution arithmetic

  lemma {:induction false} DotSilent(w: seq<real>, x: Frame)
    requires Silent(x)
    ensures Dot(w, x) == 0.0
  {
    if |w| > 0 {
      DotSilent(w[..|w| - 1], x);
    }
  }

  ghost predicate SameTap(a: Frame, b: Frame) {
    a == b || (Silent(a) && Silent(b))
  }

  lemma {:induction false} MixSame(weights: seq<seq<real>>, s: seq<Frame>, t: seq<Frame>)
    requires |s| == |t| && forall k :: 0 <= k < |s| ==> SameTap(s[k], t[k])
    ensures Mix(weights, s) == Mix(weights, t)
  {
    if weights != [] && s != [] {
      if s[0] != t[0] {
        DotSilent(weights[0], s[0]);
        DotSilent(weights[0], t[0]);
      }
      MixSame(weights[1..], s[1..], t[1..]);
    }
  }

  lemma ReceptiveHygiene(x: Signal, y: Signal, t: int, taps: nat, dilation: nat, clean: bool)
    requires Extends(x, y) && 0 <= t < |x|
    requires if clean then SilentFrom(y, |x|) else (taps / 2) * dilation == 0
    ensures forall k :: 0 <= k < taps ==>
      SameTap(Receptive(x, t, taps, dilation)[k], Receptive(y, t, taps, dilation)[k])
  {
    forall k | 0 <= k < taps
      ensures SameTap(Receptive(x, t, taps, dilation)[k], Receptive(y, t, taps, dilation)[k])
    {
      if !clean {
        ZeroRadius(taps, dilation, k);
      }
      SameTapAt(x, y, t + (k - taps / 2) * dilation);
    }
  }

  lemma SameTapAt(x: Signal, y: Signal, p: int)
    requires Extends(x, y)
    requires p < |x| || SilentFrom(y, |x|)
    ensures SameTap(At(x, p), At(y, p))
  {
  }

  lemma EmitSame(neurons: seq<Neuron>, act: real -> real, s: seq<Frame>, t: seq<Frame>)
    requires |s| == |t| && forall k :: 0 <= k < |s| ==> SameTap(s[k], t[k])
    ensures Emit(neurons, act, s) == Emit(neurons, act, t)
  {
    forall o | 0 <= o < |neurons|
      ensures Emit(neurons, act, s)[o] == Emit(neurons, act, t)[o]
    {
      MixSame(neurons[o].weights, s, t);
    }
  }

  lemma ConvHygiene(net: Net, clean: bool, x: Signal, y: Signal, t: int)
    requires net.Conv? && Hygienic(net, clean) && Extends(x, y) && (clean ==> SilentFrom(y, |x|))
    requires 0 <= t < |x|
    ensures RunConv(net, x)[t] == RunConv(net, y)[t]
  {
    ReceptiveHygiene(x, y, t, net.taps, net.dilation, clean);
    EmitSame(net.phases[0], net.act, Receptive(x, t, net.taps, net.dilation), Receptive(y, t, net.taps, net.dilation));
  }

  lemma PairHygiene(op: Op, u: Signal, v: Signal, u': Signal, v': Signal)
    requires Extends(u, u') && Extends(v, v') && |u| == |v| && |u'| == |v'|
    ensures Extends(Pairwise(op, u, v), Pairwise(op, u', v'))
  {
  }

  lemma PairSilent(op: Op, u: Signal, v: Signal, n: nat)
    requires |u| == |v|
    requires forall t :: n <= t < |u| ==> Silent(Combine(op, u[t], v[t]))
    ensures SilentFrom(Pairwise(op, u, v), n)
  {
  }

  lemma ZeroRadius(taps: nat, dilation: nat, k: nat)
    requires (taps / 2) * dilation == 0 && k < taps
    ensures (k - taps / 2) * dilation == 0
  {
    if dilation > 0 {
      if taps / 2 > 0 { MulMono(1, taps / 2, dilation); assert false; }
    }
  }

  // ---------------------------------------------------------------- the theorem

  ghost predicate SameReal(net: Net, x: Signal, y: Signal) {
    Extends(Run(net, x, ItemMask(|x|, |x|)), Run(net, y, ItemMask(|x|, |y|)))
  }

  /** An item padded into a longer tensor leaves a hygienic network as it would alone: its real
      frames are the same, and where the network promises silence the padding is silent. */
  lemma {:induction false} PaddingIsInvisible(net: Net, clean: bool, x: Signal, y: Signal)
    requires Hygienic(net, clean) && Extends(x, y) && (clean ==> SilentFrom(y, |x|))
    ensures SameReal(net, x, y)
    ensures CleanAfter(net, clean) ==> SilentFrom(Run(net, y, ItemMask(|x|, |y|)), |x|)
    ensures |Run(net, y, ItemMask(|x|, |y|))| == |y| && |Run(net, x, ItemMask(|x|, |x|))| == |x|
  {
    HygienicLength(net, clean, x, ItemMask(|x|, |x|));
    HygienicLength(net, clean, y, ItemMask(|x|, |y|));
    match net
    case Skip =>
    case Mask =>
      forall t | 0 <= t < |x| ensures Run(net, y, ItemMask(|x|, |y|))[t] == Run(net, x, ItemMask(|x|, |x|))[t] {
        ScaleOne(x[t]);
      }
    case Conv(_, _, _, _) =>
      forall t | 0 <= t < |x| ensures RunConv(net, x)[t] == RunConv(net, y)[t] {
        ConvHygiene(net, clean, x, y, t);
      }
    case Then(a, b) =>
      PaddingIsInvisible(a, clean, x, y);
      KeepsRate(a, clean);
      StretchOne(ItemMask(|x|, |x|));
      StretchOne(ItemMask(|x|, |y|));
      PaddingIsInvisible(b, CleanAfter(a, clean), Run(a, x, ItemMask(|x|, |x|)), Run(a, y, ItemMask(|x|, |y|)));
    case Add(a, b) =>
      PaddingIsInvisible(a, clean, x, y);
      PaddingIsInvisible(b, clean, x, y);
      var u, v := Run(a, x, ItemMask(|x|, |x|)), Run(b, x, ItemMask(|x|, |x|));
      var u', v' := Run(a, y, ItemMask(|x|, |y|)), Run(b, y, ItemMask(|x|, |y|));
      PairHygiene(Plus, u, v, u', v');
      if CleanAfter(net, clean) { PairSilent(Plus, u', v', |x|); }
    case Gate(a, b) =>
      PaddingIsInvisible(a, clean, x, y);
      PaddingIsInvisible(b, clean, x, y);
      var u, v := Run(a, x, ItemMask(|x|, |x|)), Run(b, x, ItemMask(|x|, |x|));
      var u', v' := Run(a, y, ItemMask(|x|, |y|)), Run(b, y, ItemMask(|x|, |y|));
      PairHygiene(Times, u, v, u', v');
      if CleanAfter(net, clean) { PairSilent(Times, u', v', |x|); }
  }

  /** A stack of ordinary dilated convolutions, each followed by the mask, is hygienic behind a
      masked input, and leaves its padding silent. */
  lemma {:induction false} MaskedStackIsHygienic(layers: seq<Net>)
    requires forall i :: 0 <= i < |layers| ==>
      layers[i].Then? && layers[i].first.Conv? && |layers[i].first.phases| == 1 && layers[i].second.Mask?
    ensures Hygienic(Stack(layers), true) && CleanAfter(Stack(layers), true)
  {
    if layers != [] {
      MaskedStackIsHygienic(layers[1..]);
    }
  }

  lemma ScaleOne(x: Frame)
    ensures Scale(1.0, x) == x
  {
  }

  lemma StretchOne(mask: seq<real>)
    ensures Stretch(mask, 1) == mask
  {
  }
}
