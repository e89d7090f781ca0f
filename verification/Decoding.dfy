/** Decoders as functions from latent frames to samples, and slice locality: decoding a window
    of the latents gives the samples the whole utterance would, away from the window's cuts. */
module Decoding {
  import opened Arith
  import opened Nets
  import opened Locality

  type Decoder = Signal -> seq<real>

  /** `hop` samples for every latent frame. */
  ghost predicate Rate(D: Decoder, hop: nat) {
    forall z :: |D(z)| == hop * |z|
  }

  /** Frame `f` of the window `[lo, hi)` has `R` frames of context on each side, or the side
      is an edge of the utterance. */
  ghost predicate InContext(z: Signal, lo: int, hi: int, f: int, R: nat) {
    && 0 <= lo <= f < hi <= |z|
    && (lo == 0 || lo <= f - R)
    && (hi == |z| || f + R + 1 <= hi)
  }

  /** Sample `j` of block `f`. */
  function Sample(audio: seq<real>, hop: nat, f: int, j: int): real {
    Get(audio, f * hop + j)
  }

  /** Block `f` of `s` is block `g` of `t`. */
  ghost predicate SameBlock(hop: nat, s: seq<real>, f: int, t: seq<real>, g: int) {
    forall j :: 0 <= j < hop ==> Sample(s, hop, f, j) == Sample(t, hop, g, j)
  }

  ghost predicate SliceLocal(D: Decoder, hop: nat, R: nat) {
    forall z: Signal, lo: int, hi: int, f: int :: InContext(z, lo, hi, f, R) ==>
      SameBlock(hop, D(z[lo..hi]), f - lo, D(z), f)
  }

  // ---------------------------------------------------------------- convolutional decoders

  function Ones(n: nat): seq<real> { seq(n, _ => 1.0) }

  /** A view of a signal that is all real. */
  function Plain(x: Signal, pos: int): View {
    View(x, Ones(|x|), pos)
  }

  function ConvDecode(net: Net, z: Signal): seq<real> {
    var y := Run(net, z, Ones(|z|));
    seq(|y|, t requires 0 <= t < |y| => Get(y[t], 0))
  }

  function ConvDecoder(net: Net): Decoder {
    z => ConvDecode(net, z)
  }

  lemma SliceAlike(z: Signal, lo: int, hi: int, f: int, R: nat)
    requires InContext(z, lo, hi, f, R)
    ensures Alike(Plain(z[lo..hi], f - lo), Plain(z, f), R)
  {
    forall k: int {:trigger SameAt(Plain(z[lo..hi], f - lo), Plain(z, f), k)} | -(R as int) <= k <= R
      ensures SameAt(Plain(z[lo..hi], f - lo), Plain(z, f), k)
    {
      if 0 <= f - lo + k < hi - lo {
        assert z[lo..hi][f - lo + k] == z[f + k];
      }
    }
  }

  lemma ConvDecoderRate(net: Net)
    ensures Rate(ConvDecoder(net), Up(net))
  {
    forall z ensures |ConvDecoder(net)(z)| == Up(net) * |z| {
      RunLength(net, z, Ones(|z|));
    }
  }

  /** Frame `f` seen in a window, where it is frame `g`. */
  lemma SliceBlock(net: Net, R: nat, z: Signal, lo: int, hi: int, f: int, x: Signal, g: int)
    requires Valid(net) && Radius(net) <= R && InContext(z, lo, hi, f, R) && x == z[lo..hi] && g == f - lo
    ensures SameBlock(Up(net), ConvDecode(net, x), g, ConvDecode(net, z), f)
  {
    SliceAlike(z, lo, hi, f, R);
    BlockAlike(net, R, x, g, z, f);
  }

  lemma ConvSliceLocal(net: Net, R: nat, D: Decoder, hop: nat)
    requires Valid(net) && Radius(net) <= R && D == ConvDecoder(net) && hop == Up(net)
    ensures SliceLocal(D, hop, R)
  {
    forall z: Signal, lo: int, hi: int, f: int | InContext(z, lo, hi, f, R)
      ensures SameBlock(hop, D(z[lo..hi]), f - lo, D(z), f)
    {
      SliceBlock(net, R, z, lo, hi, f, z[lo..hi], f - lo);
    }
  }

  /** Every network of convolutions decodes slice-locally, at any radius from its own up. */
  lemma ConvDecoderIsLocal(net: Net, R: nat)
    requires Valid(net) && Radius(net) <= R
    ensures Rate(ConvDecoder(net), Up(net)) && SliceLocal(ConvDecoder(net), Up(net), R)
  {
    ConvDecoderRate(net);
    ConvSliceLocal(net, R, ConvDecoder(net), Up(net));
  }

  lemma BlockAlike(net: Net, R: nat, x: Signal, s: int, y: Signal, t: int)
    requires Valid(net) && Radius(net) <= R && Alike(Plain(x, s), Plain(y, t), R)
    ensures SameBlock(Up(net), ConvDecode(net, x), s, ConvDecode(net, y), t)
  {
    AlikeNearer(Plain(x, s), Plain(y, t), R, Radius(net));
    forall j | 0 <= j < Up(net)
      ensures Sample(ConvDecode(net, x), Up(net), s, j) == Sample(ConvDecode(net, y), Up(net), t, j)
    {
      SampleAlike(net, x, s, y, t, j);
    }
  }

  lemma SampleAlike(net: Net, x: Signal, s: int, y: Signal, t: int, j: int)
    requires Valid(net) && 0 <= j < Up(net) && Alike(Plain(x, s), Plain(y, t), Radius(net))
    ensures Sample(ConvDecode(net, x), Up(net), s, j) == Sample(ConvDecode(net, y), Up(net), t, j)
  {
    DecodeAlike(net, Plain(x, s), Plain(y, t), j, s * Up(net) + j, t * Up(net) + j);
  }

  lemma DecodeAlike(net: Net, v: View, w: View, j: int, p: int, q: int)
    requires Valid(net) && Alike(v, w, Radius(net)) && Place(Up(net), v, j, p) && Place(Up(net), w, j, q)
    requires v.mask == Ones(|v.x|) && w.mask == Ones(|w.x|)
    ensures Get(ConvDecode(net, v.x), p) == Get(ConvDecode(net, w.x), q)
  {
    SameOut(net, v, w, j, p, q);
    DecodeAt(net, v.x, p);
    DecodeAt(net, w.x, q);
  }

  lemma DecodeAt(net: Net, x: Signal, p: int)
    ensures Get(ConvDecode(net, x), p) == Get(At(Run(net, x, Ones(|x|)), p), 0)
  {
  }

  // ---------------------------------------------------------------- windows

  /** Blocks `p`, ... of `s` are blocks `q`, ... of `t`, `n` of them. */
  ghost predicate SameBlocks(hop: nat, s: seq<real>, p: int, t: seq<real>, q: int, n: nat) {
    forall f: int, g: int :: p <= f < p + n && f - p == g - q ==> SameBlock(hop, s, f, t, g)
  }

  /** Blocks that agree one by one make up slices that agree. */
  lemma JoinBlocks(hop: nat, s: seq<real>, p: int, t: seq<real>, q: int, n: nat)
    requires 0 <= p * hop <= (p + n) * hop <= |s| && 0 <= q * hop <= (q + n) * hop <= |t|
    requires SameBlocks(hop, s, p, t, q, n)
    ensures s[p * hop..(p + n) * hop] == t[q * hop..(q + n) * hop]
  {
    Distribute(p, n, hop);
    Distribute(q, n, hop);
    var u, v := s[p * hop..(p + n) * hop], t[q * hop..(q + n) * hop];
    assert |u| == |v| == n * hop;
    forall i | 0 <= i < |u| ensures u[i] == v[i] {
      JoinSample(hop, s, p, t, q, n, i);
    }
  }

  lemma JoinSample(hop: nat, s: seq<real>, p: int, t: seq<real>, q: int, n: nat, i: nat)
    requires i < n * hop
    requires SameBlocks(hop, s, p, t, q, n)
    ensures Get(s, p * hop + i) == Get(t, q * hop + i)
  {
    if hop == 0 { assert false; }
    var f, j := i / hop, i % hop;
    assert i == f * hop + j;
    InBlock(f, hop, j, n);
    Distribute(p, f, hop);
    Distribute(q, f, hop);
    assert SameBlock(hop, s, p + f, t, q + f);
    assert Sample(s, hop, p + f, j) == Sample(t, hop, q + f, j);
  }

  /** Frames `[c, d)` of a window that has context around them decode to their own samples. */
  lemma WindowSamples(D: Decoder, hop: nat, R: nat, z: Signal, lo: int, hi: int, c: int, d: int)
    requires Rate(D, hop) && SliceLocal(D, hop, R)
    requires 0 <= lo <= c <= d <= hi <= |z|
    requires (lo == 0 || lo + R <= c) && (hi == |z| || d + R <= hi)
    ensures 0 <= (c - lo) * hop <= (d - lo) * hop <= |D(z[lo..hi])| && 0 <= c * hop <= d * hop <= |D(z)|
    ensures D(z[lo..hi])[(c - lo) * hop..(d - lo) * hop] == D(z)[c * hop..d * hop]
  {
    FrameBounds(D, hop, z[lo..hi], c - lo, d - lo);
    FrameBounds(D, hop, z, c, d);
    forall f: int, g: int | c - lo <= f < d - lo && f + lo == g
      ensures SameBlock(hop, D(z[lo..hi]), f, D(z), g)
    {
      assert InContext(z, lo, hi, g, R);
    }
    JoinBlocks(hop, D(z[lo..hi]), c - lo, D(z), c, d - c);
  }

  lemma FrameBounds(D: Decoder, hop: nat, z: Signal, c: int, d: int)
    requires Rate(D, hop) && 0 <= c <= d <= |z|
    ensures 0 <= c * hop <= d * hop <= |D(z)| == |z| * hop
  {
    MulMono(0, c, hop);
    MulMono(c, d, hop);
    MulMono(d, |z|, hop);
  }
}
