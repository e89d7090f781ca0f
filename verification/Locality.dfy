/** What a network emits for one input frame is decided by the frames within its radius. */
module Locality {
  import opened Arith
  import opened Nets

  /** A signal, the mask beside it, and a position in it. */
  datatype View = View(x: Signal, mask: seq<real>, pos: int)

  /** `k` frames away from both positions the views look alike, even in where they end. */
  ghost predicate SameAt(v: View, w: View, k: int) {
    && (0 <= v.pos + k < |v.x| <==> 0 <= w.pos + k < |w.x|)
    && At(v.x, v.pos + k) == At(w.x, w.pos + k)
    && Get(v.mask, v.pos + k) == Get(w.mask, w.pos + k)
  }

  ghost predicate Alike(v: View, w: View, r: nat) {
    forall k: int :: -(r as int) <= k <= r ==> SameAt(v, w, k)
  }

  lemma AlikeNearer(v: View, w: View, r: nat, r': nat)
    requires Alike(v, w, r) && r' <= r
    ensures Alike(v, w, r')
  {
  }

  function Move(v: View, q: int): View {
    v.(pos := v.pos + q)
  }

  /** The view `j` positions into what the network emits for the viewed frame. */
  function Through(net: Net, v: View, j: int): View {
    View(Run(net, v.x, v.mask), Stretch(v.mask, Up(net)), v.pos * Up(net) + j)
  }

  lemma AlikeElsewhere(v: View, w: View, r: nat, q: int, r': nat)
    requires Alike(v, w, r)
    requires -(r - r') <= q <= r - r'
    ensures Alike(Move(v, q), Move(w, q), r')
  {
    forall k: int | -(r' as int) <= k <= r'
      ensures SameAt(Move(v, q), Move(w, q), k)
    {
      assert SameAt(v, w, q + k);
    }
  }

  lemma StretchAt(mask: seq<real>, u: nat, s: int, j: int)
    requires 0 <= j < u
    ensures Get(Stretch(mask, u), s * u + j) == Get(mask, s)
  {
    DivUnique(s, u, j);
    InBlock(s, u, j, |mask|);
  }

  lemma SameReceptive(v: View, w: View, taps: nat, dilation: nat)
    requires Alike(v, w, (taps / 2) * dilation)
    ensures Receptive(v.x, v.pos, taps, dilation) == Receptive(w.x, w.pos, taps, dilation)
  {
    forall k | 0 <= k < taps
      ensures Receptive(v.x, v.pos, taps, dilation)[k] == Receptive(w.x, w.pos, taps, dilation)[k]
    {
      var q := (k - taps / 2) * dilation;
      MulMono(k - taps / 2, taps / 2, dilation);
      MulMono(-(taps / 2), k - taps / 2, dilation);
      assert SameAt(v, w, q);
    }
  }

  // ---------------------------------------------------------------- one view at a time

  predicate Inside(v: View) {
    0 <= v.pos < |v.x|
  }

  /** `p` is output `j` of the viewed frame, at `u` outputs a frame. */
  predicate Place(u: nat, v: View, j: int, p: int) {
    0 <= j < u && p == v.pos * u + j
  }

  /** The outputs of a frame exist exactly when the frame does. */
  lemma OutExists(net: Net, v: View, j: int, p: int)
    requires Place(Up(net), v, j, p)
    ensures 0 <= p < |Run(net, v.x, v.mask)| <==> Inside(v)
  {
    RunLength(net, v.x, v.mask);
    InBlock(v.pos, Up(net), j, |v.x|);
  }

  lemma OutConv(net: Net, v: View, j: int, p: int)
    requires net.Conv? && Place(Up(net), v, j, p)
    ensures At(RunConv(net, v.x), p)
      == if Inside(v) then Emit(net.phases[j], net.act, Receptive(v.x, v.pos, net.taps, net.dilation)) else []
  {
    OutExists(net, v, j, p);
    DivUnique(v.pos, Up(net), j);
  }

  lemma PairAt(op: Op, u: Signal, v: Signal, p: int)
    ensures At(Pairwise(op, u, v), p) == if 0 <= p < |u| then Combine(op, At(u, p), At(v, p)) else []
  {
  }

  // ---------------------------------------------------------------- two views

  lemma {:induction false} SameOut(net: Net, v: View, w: View, j: int, p: int, q: int)
    requires Valid(net) && Alike(v, w, Radius(net)) && Place(Up(net), v, j, p) && Place(Up(net), w, j, q)
    ensures At(Run(net, v.x, v.mask), p) == At(Run(net, w.x, w.mask), q)
    decreases net, 3
  {
    assert SameAt(v, w, 0);
    match net
    case Skip =>
    case Mask =>
    case Conv(_, taps, dilation, _) =>
      OutConv(net, v, j, p);
      OutConv(net, w, j, q);
      SameReceptive(v, w, taps, dilation);
    case Then(_, _) => SameThen(net, v, w, j, p, q);
    case Add(a, b) => SamePair(net, Plus, a, b, v, w, j, p, q);
    case Gate(a, b) => SamePair(net, Times, a, b, v, w, j, p, q);
  }

  lemma {:induction false} SamePair(net: Net, op: Op, a: Net, b: Net, v: View, w: View, j: int, p: int, q: int)
    requires a < net && b < net && Valid(a) && Valid(b) && Up(a) == Up(b)
    requires Alike(v, w, Max(Radius(a), Radius(b))) && Place(Up(a), v, j, p) && Place(Up(a), w, j, q)
    ensures At(Pairwise(op, Run(a, v.x, v.mask), Run(b, v.x, v.mask)), p)
      == At(Pairwise(op, Run(a, w.x, w.mask), Run(b, w.x, w.mask)), q)
    decreases net, 2
  {
    AlikeNearer(v, w, Max(Radius(a), Radius(b)), Radius(a));
    AlikeNearer(v, w, Max(Radius(a), Radius(b)), Radius(b));
    SameOut(a, v, w, j, p, q);
    SameOut(b, v, w, j, p, q);
    PairAt(op, Run(a, v.x, v.mask), Run(b, v.x, v.mask), p);
    PairAt(op, Run(a, w.x, w.mask), Run(b, w.x, w.mask), q);
    OutExists(a, v, j, p);
    OutExists(a, w, j, q);
    assert SameAt(v, w, 0);
  }

  lemma {:induction false} SameThen(net: Net, v: View, w: View, j: int, p: int, q: int)
    requires net.Then? && Valid(net) && Alike(v, w, Radius(net)) && Place(Up(net), v, j, p) && Place(Up(net), w, j, q)
    ensures At(Run(net, v.x, v.mask), p) == At(Run(net, w.x, w.mask), q)
    decreases net, 2
  {
    var a, b := net.first, net.second;
    TwoStages(v.pos, Up(a), Up(b), Up(net), j);
    TwoStages(w.pos, Up(a), Up(b), Up(net), j);
    var i, l := j / Up(b), j % Up(b);
    MidwayAlike(net, v, w, i);
    SameOut(b, Through(a, v, i), Through(a, w, i), l, p, q);
  }

  lemma {:induction false} MidwayAlike(net: Net, v: View, w: View, i: int)
    requires net.Then? && Valid(net) && 0 <= i < Up(net.first) && Alike(v, w, Radius(net))
    ensures Alike(Through(net.first, v, i), Through(net.first, w, i), Radius(net.second))
    decreases net, 1
  {
    forall k: int | -(Radius(net.second) as int) <= k <= Radius(net.second)
      ensures SameAt(Through(net.first, v, i), Through(net.first, w, i), k)
    {
      MidwayAt(net, v, w, i, k);
    }
  }

  lemma {:induction false} MidwayAt(net: Net, v: View, w: View, i: int, k: int)
    requires net.Then? && Valid(net) && 0 <= i < Up(net.first) && Alike(v, w, Radius(net))
    requires -(Radius(net.second) as int) <= k <= Radius(net.second)
    ensures SameAt(Through(net.first, v, i), Through(net.first, w, i), k)
    decreases net, 0
  {
    var a := net.first;
    var q, l := BlockShift(Up(a), i, k, Radius(net.second));
    AlikeElsewhere(v, w, Radius(net), q, Radius(a));
    assert SameAt(Move(v, q), Move(w, q), 0);
    var p, p' := v.pos * Up(a) + i + k, w.pos * Up(a) + i + k;
    PlaceAfter(Up(a), v, i, k, q, l, p);
    PlaceAfter(Up(a), w, i, k, q, l, p');
    SameOut(a, Move(v, q), Move(w, q), l, p, p');
    SamePlace(a, v, w, i, k, q, l, p, p');
  }

  lemma PlaceAfter(u: nat, v: View, i: int, k: int, q: int, l: int, p: int)
    requires 0 <= l < u && i + k == q * u + l && p == v.pos * u + i + k
    ensures Place(u, Move(v, q), l, p)
  {
    Distribute(v.pos, q, u);
  }

  /** What is emitted `k` places further on is emitted for the frame `q` further on. */
  lemma SamePlace(net: Net, v: View, w: View, i: int, k: int, q: int, l: int, p: int, p': int)
    requires p == v.pos * Up(net) + i + k && p' == w.pos * Up(net) + i + k
    requires Place(Up(net), Move(v, q), l, p) && Place(Up(net), Move(w, q), l, p') && SameAt(Move(v, q), Move(w, q), 0)
    requires At(Run(net, v.x, v.mask), p) == At(Run(net, w.x, w.mask), p')
    ensures SameAt(Through(net, v, i), Through(net, w, i), k)
  {
    OutExists(net, Move(v, q), l, p);
    OutExists(net, Move(w, q), l, p');
    MaskAt(v.mask, Up(net), Move(v, q), l, p);
    MaskAt(w.mask, Up(net), Move(w, q), l, p');
    assert Through(net, v, i).pos + k == p && Through(net, w, i).pos + k == p';
  }

  lemma MaskAt(mask: seq<real>, u: nat, v: View, l: int, p: int)
    requires Place(u, v, l, p)
    ensures Get(Stretch(mask, u), p) == Get(mask, v.pos)
  {
    StretchAt(mask, u, v.pos, l);
  }

  /** Everything a network emits for a frame is a function of what is within its radius: two
      views that look alike there yield the same frames, wherever they are in their signals. */
  lemma OutputDependsOnRadius(net: Net, v: View, w: View, j: int)
    requires Valid(net) && 0 <= j < Up(net) && Alike(v, w, Radius(net))
    ensures SameAt(Through(net, v, j), Through(net, w, j), 0)
  {
    assert SameAt(v, w, 0);
    SameOut(net, v, w, j, v.pos * Up(net) + j, w.pos * Up(net) + j);
    assert Move(v, 0) == v && Move(w, 0) == w;
    SamePlace(net, v, w, j, 0, 0, j, v.pos * Up(net) + j, w.pos * Up(net) + j);
  }
}
