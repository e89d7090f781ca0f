/** `ChunkedSynthesizer`: progressive, overlapped, optionally crossfaded chunk decoding. */
module Chunked {
  import opened Arith
  import opened Nets
  import opened Decoding
  import opened Planner
  import opened Streaming

  // ---------------------------------------------------------------- PCM

  function Clip(v: real): real {
    if v < -1.0 then -1.0 else if v > 1.0 then 1.0 else v
  }

  /** A sample as a signed 16-bit value. */
  function Quantise(v: real): int {
    Trunc(Clip(v) * 32767.0)
  }

  function ToPcm(audio: seq<real>): (pcm: seq<int>)
    ensures |pcm| == |audio|
  {
    seq(|audio|, k requires 0 <= k < |audio| => Quantise(audio[k]))
  }

  /** Quantisation fits 16 bits, is monotone and odd, and errs by less than one step inside the
      clipping range, always towards silence. */
  lemma QuantiseIsFaithful(u: real, v: real)
    requires u <= v
    ensures -32767 <= Quantise(u) <= Quantise(v) <= 32767
    ensures Quantise(-u) == -Quantise(u)
    ensures 0.0 <= u <= 1.0 ==> 0.0 <= u * 32767.0 - Quantise(u) as real < 1.0
    ensures -1.0 <= u <= 0.0 ==> -1.0 < u * 32767.0 - Quantise(u) as real <= 0.0
    ensures u >= 1.0 ==> Quantise(u) == 32767
  {
    assert Clip(-u) * 32767.0 == -(Clip(u) * 32767.0);
  }

  // ---------------------------------------------------------------- configuration

  // The sine and cosine tables of the equal-power shape are inputs.
  datatype Shape = Linear | EqualPower(cos: seq<real>, sin: seq<real>)

  datatype ChunkConfig = ChunkConfig(
    firstChunkMs: real, maxChunkMs: real, growth: real, overlapFrames: nat, crossfadeMs: real, shape: Shape)

  /** Rounds to nearest, ties to even. */
  function Round(x: real): int {
    var n := x.Floor;
    var d := x - n as real;
    if d < 0.5 || (d == 0.5 && n % 2 == 0) then n else n + 1
  }

  /** No integer is nearer, and of two that are equally near it is the even one. */
  lemma RoundIsNearest(x: real)
    ensures -0.5 <= x - Round(x) as real <= 0.5
    ensures x - Round(x) as real == 0.5 || x - Round(x) as real == -0.5 ==> Round(x) % 2 == 0
  {
  }

  function Product(rates: seq<int>): int {
    if rates == [] then 1 else Product(rates[..|rates| - 1]) * rates[|rates| - 1]
  }

  /** Every rate multiplies the samples of a frame, in any order of stages. */
  lemma {:induction false} ProductIs(a: seq<int>, b: seq<int>)
    ensures Product([]) == 1 && (|a| == 1 ==> Product(a) == a[0])
    ensures Product(a + b) == Product(a) * Product(b)
  {
    if |a| == 1 {
      assert a[..0] == [] && Product(a) == Product([]) * a[0];
    }
    if b == [] {
      assert a + b == a;
    } else {
      var front, last := b[..|b| - 1], b[|b| - 1];
      ProductIs(a, front);
      assert (a + b)[..|a + b| - 1] == a + front;
      assert Product(a) * Product(front) * last == Product(a) * (Product(front) * last);
    }
  }

  /** `n` points from 0 to 1. */
  function Ramp(n: nat): seq<real> {
    seq(n, k => if n == 1 then 0.0 else k as real / (n - 1) as real)
  }

  function FadeCurves(n: nat, shape: Shape): Fades {
    if n == 0 then Fades([], [])
    else match shape
      case EqualPower(cos, sin) => Fades(cos, sin)
      case Linear => Fades(seq(n, k requires 0 <= k < n => 1.0 - Ramp(n)[k]), Ramp(n))
  }

  /** The linear pair: what is carried goes from all to nothing, what comes from nothing to all, in
      equal steps; a single sample is carried whole. */
  lemma LinearMovesOver(n: nat, k: nat)
    requires k + 1 < n
    ensures var f := FadeCurves(n, Linear);
      && |f.fadeOut| == |f.fadeIn| == n
      && f.fadeOut[0] == 1.0 && f.fadeIn[0] == 0.0 && f.fadeOut[n - 1] == 0.0 && f.fadeIn[n - 1] == 1.0
      && f.fadeIn[k + 1] - f.fadeIn[k] == f.fadeOut[k] - f.fadeOut[k + 1] == 1.0 / (n - 1) as real
    ensures FadeCurves(1, Linear) == Fades([1.0], [0.0])
  {
    var f, d := FadeCurves(n, Linear), n - 1;
    EqualSteps(k, d);
    RampAt(n, 0);
    RampAt(n, k);
    RampAt(n, k + 1);
    RampAt(n, d);
    assert 0 as real / d as real == 0.0;
    var one := FadeCurves(1, Linear);
    assert one.fadeOut == [1.0] && one.fadeIn == [0.0];
  }

  lemma RampAt(n: nat, k: nat)
    requires k < n && n > 1
    ensures var f := FadeCurves(n, Linear);
      |f.fadeOut| == |f.fadeIn| == n && f.fadeIn[k] == k as real / (n - 1) as real == 1.0 - f.fadeOut[k]
  {
  }

  lemma EqualSteps(k: nat, d: nat)
    requires d > 0
    ensures (k + 1) as real / d as real - k as real / d as real == 1.0 / d as real && d as real / d as real == 1.0
  {
    assert (k + 1) as real == k as real + 1.0;
  }

  /** Of the equal-power pair the cosine fades out and the sine fades in; no fade has no curves. */
  lemma EqualPowerMovesOver(n: nat, cos: seq<real>, sin: seq<real>, shape: Shape)
    requires n > 0
    ensures FadeCurves(n, EqualPower(cos, sin)).fadeOut == cos && FadeCurves(n, EqualPower(cos, sin)).fadeIn == sin
    ensures FadeCurves(0, shape) == Fades([], [])
  {
  }

  /** Blended linearly, the seam starts with the carried sample, ends with the chunk's own, and is
      in between throughout. */
  lemma LinearBlendIsBetween(carry: seq<real>, body: seq<real>, k: nat)
    requires 1 < |carry| <= |body| && k < |carry|
    ensures var out := Blend(carry, body, FadeCurves(|carry|, Linear));
      && out[0] == carry[0] && out[|carry| - 1] == body[|carry| - 1]
      && (carry[k] <= body[k] ==> carry[k] <= out[k] <= body[k])
      && (body[k] <= carry[k] ==> body[k] <= out[k] <= carry[k])
  {
    var n := |carry|;
    BlendAt(carry, body, k);
    BlendAt(carry, body, 0);
    BlendAt(carry, body, n - 1);
    PartOfWhole(k, n - 1);
    PartOfWhole(0, n - 1);
    PartOfWhole(n - 1, n - 1);
    Between(carry[k], body[k], k as real / (n - 1) as real, Blend(carry, body, FadeCurves(n, Linear))[k]);
  }

  lemma BlendAt(carry: seq<real>, body: seq<real>, k: nat)
    requires 1 < |carry| <= |body| && k < |carry|
    ensures var t := k as real / (|carry| - 1) as real;
      Blend(carry, body, FadeCurves(|carry|, Linear))[k] == carry[k] * (1.0 - t) + body[k] * t
  {
    RampAt(|carry|, k);
  }

  lemma PartOfWhole(k: nat, d: nat)
    requires k <= d && d > 0
    ensures 0.0 <= k as real / d as real <= 1.0
    ensures k == 0 ==> k as real / d as real == 0.0
    ensures k == d ==> k as real / d as real == 1.0
  {
  }

  lemma Between(x: real, y: real, t: real, z: real)
    requires 0.0 <= t <= 1.0 && z == x * (1.0 - t) + y * t
    ensures x <= y ==> x <= z <= y
    ensures y <= x ==> y <= z <= x
  {
    Shifted(x, y, t);
    Shifted(y, x, 1.0 - t);
    if x <= y {
      SameSign(y - x, t);
      SameSign(y - x, 1.0 - t);
    } else {
      SameSign(x - y, t);
      SameSign(x - y, 1.0 - t);
    }
  }

  lemma Shifted(x: real, y: real, t: real)
    ensures x * (1.0 - t) + y * t == x + (y - x) * t == x - (x - y) * t
  {
  }

  lemma SameSign(a: real, b: real)
    requires a >= 0.0 && b >= 0.0
    ensures a * b >= 0.0
  {
  }

  /** The linear shape has equal gain, at every length. */
  lemma LinearIsEqualGain(n: nat)
    ensures EqualGain(FadeCurves(n, Linear), n)
  {
  }

  /** Where both factors are strictly between 0 and 1 and their squares add up to one, a sample
      common to both sides comes out louder: equal power is not neutral on correlated audio. */
  lemma EqualPowerAmplifies(fades: Fades, carried: nat, k: nat)
    requires k < carried
    requires 0.0 < Get(fades.fadeOut, k) < 1.0 && 0.0 < Get(fades.fadeIn, k) < 1.0
    requires Get(fades.fadeOut, k) * Get(fades.fadeOut, k) + Get(fades.fadeIn, k) * Get(fades.fadeIn, k) == 1.0
    ensures Gain(fades, carried, k) > 1.0
  {
    var c, s := Get(fades.fadeOut, k), Get(fades.fadeIn, k);
    BelowOne(c, c * c);
    BelowOne(s, s * s);
    assert Gain(fades, carried, k) == c + s;
  }

  lemma BelowOne(c: real, square: real)
    requires 0.0 < c < 1.0 && square == c * c
    ensures square < c
  {
    assert c * (1.0 - c) > 0.0;
  }

  // ---------------------------------------------------------------- the stream

  datatype AudioChunk = AudioChunk(
    index: nat, pcm: seq<int>, audioSeconds: real, isFinal: bool, framesDecoded: int, framesKept: int,
    samples: seq<real>)

  datatype StreamStats = StreamStats(audioSeconds: real, chunks: nat, wastedFrameFraction: real)

  /** The chunks' samples end to end. */
  function Collect(chunks: seq<AudioChunk>): seq<real> {
    if chunks == [] then [] else Collect(chunks[..|chunks| - 1]) + chunks[|chunks| - 1].samples
  }

  function SumSeconds(chunks: seq<AudioChunk>): real {
    if chunks == [] then 0.0 else SumSeconds(chunks[..|chunks| - 1]) + chunks[|chunks| - 1].audioSeconds
  }

  function SumDecoded(chunks: seq<AudioChunk>): int {
    if chunks == [] then 0 else SumDecoded(chunks[..|chunks| - 1]) + chunks[|chunks| - 1].framesDecoded
  }

  lemma SumsAt(chunks: seq<AudioChunk>, n: nat)
    requires n < |chunks|
    ensures SumDecoded(chunks[..n + 1]) == SumDecoded(chunks[..n]) + chunks[n].framesDecoded
    ensures SumSeconds(chunks[..n + 1]) == SumSeconds(chunks[..n]) + chunks[n].audioSeconds
  {
    assert chunks[..n + 1][..n] == chunks[..n];
  }

  lemma SumsSnoc(chunks: seq<AudioChunk>, chunk: AudioChunk)
    ensures SumDecoded(chunks + [chunk]) == SumDecoded(chunks) + chunk.framesDecoded
    ensures SumSeconds(chunks + [chunk]) == SumSeconds(chunks) + chunk.audioSeconds
  {
    assert (chunks + [chunk])[..|chunks|] == chunks;
  }

  lemma {:induction false} SecondsAddUp(chunks: seq<AudioChunk>, hop: nat, sr: int, bounds: seq<Span>, n: nat)
    requires sr != 0 && n <= |chunks| == |bounds|
    requires forall j :: 0 <= j < |chunks| ==>
      Covered(hop, bounds, j) as real / sr as real + chunks[j].audioSeconds
      == Covered(hop, bounds, j + 1) as real / sr as real
    ensures SumSeconds(chunks[..n]) == Covered(hop, bounds, n) as real / sr as real
  {
    if n > 0 {
      SecondsAddUp(chunks, hop, sr, bounds, n - 1);
      SumsAt(chunks, n - 1);
    }
  }

  lemma FramesAt(bounds: seq<Span>, P: nat, total: int, n: nat)
    requires n < |bounds|
    ensures FramesDecoded(bounds[..n + 1], P, total)
      == FramesDecoded(bounds[..n], P, total) + Hi(P, bounds[n], total) - Lo(P, bounds[n])
  {
    assert bounds[..n + 1][..n] == bounds[..n];
  }

  lemma {:induction false} FramesAddUp(chunks: seq<AudioChunk>, bounds: seq<Span>, P: nat, total: int, n: nat)
    requires n <= |chunks| == |bounds|
    requires forall j :: 0 <= j < |chunks| ==> chunks[j].framesDecoded == Hi(P, bounds[j], total) - Lo(P, bounds[j])
    ensures SumDecoded(chunks[..n]) == FramesDecoded(bounds[..n], P, total)
  {
    if n > 0 {
      FramesAddUp(chunks, bounds, P, total, n - 1);
      SumsAt(chunks, n - 1);
      FramesAt(bounds, P, total, n - 1);
    }
  }

  /** On a plan the click is missed at the end of the first chunk. */
  lemma PlannedClick(hop: nat, R: nat, P: nat, fades: Fades, first: nat, max: nat, growth: real, spans: seq<Span>)
    requires hop >= 1 && 1 <= first <= max && P < R && spans == Plan(0, first, max, growth, first + R)
    ensures Chain(spans, first + R)
    ensures Streamed(Early(hop, R), hop, P, 0, fades, Click(first - 1 + R), spans, |spans|)
      != Early(hop, R)(Click(first - 1 + R))
  {
    PlanIsPartition(0, first, max, growth, first + R);
    PlanStarts(first, max, growth, first + R);
    ClickIsHeardApart(hop, R, P, fades, first, spans);
  }

  class ChunkedSynthesizer {
    const decoder: Decoder
    const hop: int
    const sr: int
    const firstFrames: int
    const maxFrames: int
    const growth: real
    const overlap: nat
    const crossfadeSamples: int
    const fades: Fades
    var stats: StreamStats

    /** Set-up fails where the source raises: the rates must multiply to more than one. */
    static predicate Accepts(upsampleRates: seq<int>) {
      Product(upsampleRates) > 1
    }

    /** The crossfade the configuration asks for, before it is capped. */
    static function AskedCrossfade(cfg: ChunkConfig, sr: int): int {
      Trunc(cfg.crossfadeMs * sr as real / 1000.0)
    }

    /** Set-up as callers see it: nothing where the source raises because no hop can be derived. */
    static method Create(decoder: Decoder, cfg: ChunkConfig, sr: int, upsampleRates: seq<int>)
        returns (s: ChunkedSynthesizer?)
      requires sr != 0 && AskedCrossfade(cfg, sr) >= 0
      ensures s == null <==> Product(upsampleRates) <= 1
      ensures s != null ==> fresh(s) && s.Valid() && s.decoder == decoder && s.hop == Product(upsampleRates)
    {
      s := null;
      if Accepts(upsampleRates) {
        s := new ChunkedSynthesizer(decoder, cfg, sr, upsampleRates);
      }
    }

    constructor (decoder: Decoder, cfg: ChunkConfig, sr: int, upsampleRates: seq<int>)
      requires Accepts(upsampleRates) && sr != 0 && AskedCrossfade(cfg, sr) >= 0
      ensures Valid() && this.decoder == decoder && this.sr == sr
      ensures hop == Product(upsampleRates) && overlap == cfg.overlapFrames && growth == cfg.growth
      ensures firstFrames == Max(1, Round(cfg.firstChunkMs * sr as real / 1000.0 / hop as real))
      ensures maxFrames == Max(firstFrames, Round(cfg.maxChunkMs * sr as real / 1000.0 / hop as real))
      ensures crossfadeSamples == Min(Trunc(cfg.crossfadeMs * sr as real / 1000.0), overlap * hop)
      ensures fades == FadeCurves(crossfadeSamples, cfg.shape)
    {
      this.decoder := decoder;
      this.sr := sr;
      var h := Product(upsampleRates);
      hop := h;
      var first := Max(1, Round(cfg.firstChunkMs * sr as real / 1000.0 / h as real));
      firstFrames := first;
      maxFrames := Max(first, Round(cfg.maxChunkMs * sr as real / 1000.0 / h as real));
      growth := cfg.growth;
      overlap := cfg.overlapFrames;
      var xf := Trunc(cfg.crossfadeMs * sr as real / 1000.0);
      MulMono(0, cfg.overlapFrames, h);
      if xf > cfg.overlapFrames * h {
        xf := cfg.overlapFrames * h;
      }
      crossfadeSamples := xf;
      fades := FadeCurves(xf, cfg.shape);
      stats := StreamStats(0.0, 0, 0.0);
    }

    predicate Valid() {
      hop > 1 && sr != 0 && 1 <= firstFrames <= maxFrames && 0 <= crossfadeSamples <= overlap * hop
    }

    /** The spans an utterance of `total` frames is cut into. */
    function Bounds(total: nat): seq<Span>
      requires Valid()
    {
      Plan(0, firstFrames, maxFrames, growth, total)
    }

    function DecodeFull(latents: Signal): seq<real> {
      decoder(latents)
    }

    method PlanChunks(total: nat) returns (bounds: seq<Span>)
      requires Valid()
      ensures bounds == Bounds(total)
    {
      bounds := [];
      var a: nat, size: nat := 0, firstFrames;
      while a < total
        invariant size >= 1 && a <= total && |bounds| <= |Bounds(total)|
        invariant bounds == Bounds(total)[..|bounds|]
        invariant Bounds(total)[|bounds|..] == Plan(a, size, maxFrames, growth, total)
        decreases total - a
      {
        PlanStep(Bounds(total), |bounds|, a, size, maxFrames, growth, total);
        var b := Min(a + size, total);
        bounds := bounds + [Span(a, b)];
        a := b;
        size := NextSize(size, maxFrames, growth);
      }
    }

    /** What the stream must deliver for chunk `i`. */
    ghost predicate IsChunk(c: AudioChunk, latents: Signal, i: nat)
      requires Valid() && Chain(Bounds(|latents|), |latents|) && i < |Bounds(|latents|)|
    {
      var bounds := Bounds(|latents|);
      && c.index == i
      && c.samples == ChunkSamples(decoder, hop, overlap, crossfadeSamples, fades, latents, bounds, i)
      && c.pcm == ToPcm(c.samples)
      && c.audioSeconds == |c.samples| as real / sr as real
      && (c.isFinal <==> i == |bounds| - 1)
      && c.framesKept == bounds[i].b - bounds[i].a
      && c.framesDecoded == Hi(overlap, bounds[i], |latents|) - Lo(overlap, bounds[i])
    }

    method StreamLatents(latents: Signal) returns (chunks: seq<AudioChunk>)
      requires Valid() && Rate(decoder, hop)
      modifies this
      ensures Partition(Bounds(|latents|), 0, |latents|) && Chain(Bounds(|latents|), |latents|)
      ensures |chunks| == |Bounds(|latents|)|
      ensures forall i :: 0 <= i < |chunks| ==> IsChunk(chunks[i], latents, i)
      ensures Collect(chunks)
        == Streamed(decoder, hop, overlap, crossfadeSamples, fades, latents, Bounds(|latents|), |chunks|)
      ensures |Collect(chunks)| == |latents| * hop
      ensures stats.chunks == |chunks| && stats.audioSeconds == Seconds(|latents| * hop)
      ensures stats.wastedFrameFraction == Wasted(|latents|, FramesDecoded(Bounds(|latents|), overlap, |latents|))
    {
      var total := |latents|;
      var bounds := PlanChunks(total);
      PlanIsPartition(0, firstFrames, maxFrames, growth, total);
      PartitionIsChain(bounds, total);
      var decodedFrames;
      chunks, decodedFrames := DecodeAll(latents, bounds);
      Totals(chunks, latents);
      stats := stats.(wastedFrameFraction := Wasted(total, decodedFrames));
    }

    /** What the stream has delivered so far. */
    ghost predicate AreChunks(chunks: seq<AudioChunk>, latents: Signal)
      requires Valid() && Chain(Bounds(|latents|), |latents|)
    {
      |chunks| <= |Bounds(|latents|)| && forall j :: 0 <= j < |chunks| ==> IsChunk(chunks[j], latents, j)
    }

    lemma AreChunksSnoc(chunks: seq<AudioChunk>, chunk: AudioChunk, latents: Signal)
      requires Valid() && Chain(Bounds(|latents|), |latents|)
      requires AreChunks(chunks, latents) && |chunks| < |Bounds(|latents|)| && IsChunk(chunk, latents, |chunks|)
      ensures AreChunks(chunks + [chunk], latents)
    {
    }

    /** The decoding loop. */
    method DecodeAll(latents: Signal, bounds: seq<Span>) returns (chunks: seq<AudioChunk>, decodedFrames: int)
      requires Valid() && Rate(decoder, hop)
      requires bounds == Bounds(|latents|) && Partition(bounds, 0, |latents|) && Chain(bounds, |latents|)
      modifies this
      ensures |chunks| == |bounds| && AreChunks(chunks, latents)
      ensures decodedFrames == SumDecoded(chunks)
      ensures stats == StreamStats(SumSeconds(chunks), |chunks|, 0.0)
    {
      stats := StreamStats(0.0, 0, 0.0);
      chunks, decodedFrames := [], 0;
      var carry: seq<real> := [];
      var i := 0;
      while i < |bounds|
        invariant |chunks| == i <= |bounds| && AreChunks(chunks, latents)
        invariant carry == Carry(decoder, hop, overlap, crossfadeSamples, latents, bounds, i)
        invariant decodedFrames == SumDecoded(chunks)
        invariant stats == StreamStats(SumSeconds(chunks), i, 0.0)
      {
        var chunk, tail := DecodeChunk(latents, bounds, i, carry);
        SumsSnoc(chunks, chunk);
        AreChunksSnoc(chunks, chunk, latents);
        decodedFrames := decodedFrames + chunk.framesDecoded;
        carry := tail;
        chunks := chunks + [chunk];
        stats := stats.(chunks := stats.chunks + 1, audioSeconds := stats.audioSeconds + chunk.audioSeconds);
        i := i + 1;
      }
    }

    /** One turn of the loop: decode with context, trim, blend, convert. */
    method DecodeChunk(latents: Signal, bounds: seq<Span>, i: nat, carry: seq<real>)
        returns (chunk: AudioChunk, tail: seq<real>)
      requires Valid() && Rate(decoder, hop)
      requires bounds == Bounds(|latents|) && Partition(bounds, 0, |latents|) && Chain(bounds, |latents|)
        && i < |bounds|
      requires carry == Carry(decoder, hop, overlap, crossfadeSamples, latents, bounds, i)
      ensures IsChunk(chunk, latents, i)
      ensures tail == Carry(decoder, hop, overlap, crossfadeSamples, latents, bounds, i + 1)
    {
      var a, b, total := bounds[i].a, bounds[i].b, |latents|;
      PartitionIsChain(bounds, total);
      var isFinal := b >= total;
      var lo, hi := Max(0, a - overlap), Min(total, b + overlap);
      var audio := decoder(latents[lo..hi]);
      var body, rest := Trim(latents, bounds[i], audio, a - lo);
      tail := if !isFinal then rest else [];
      var out := Mixed(carry, body);
      chunk := AudioChunk(i, ToPcm(out), Seconds(|out|), isFinal, hi - lo, b - a, out);
    }

    /** Drops the left context, keeps the body and the tail after it. */
    method Trim(ghost latents: Signal, s: Span, audio: seq<real>, leftCtx: nat)
        returns (body: seq<real>, tail: seq<real>)
      requires Valid() && Rate(decoder, hop) && 0 <= s.a < s.b <= |latents|
      requires leftCtx == s.a - Lo(overlap, s) && audio == Audio(decoder, overlap, latents, s)
      ensures body == Body(decoder, hop, overlap, latents, s)
      ensures s.b < |latents| ==> tail == Tail(decoder, hop, overlap, crossfadeSamples, latents, s)
    {
      var start := leftCtx * hop;
      var bodyEnd := start + (s.b - s.a) * hop;
      TrimAt(leftCtx, s.a, s.b, Lo(overlap, s), start, bodyEnd);
      body := PySlice(audio, start, bodyEnd);
      tail := PySlice(audio, bodyEnd, bodyEnd + crossfadeSamples);
    }

    lemma TrimAt(leftCtx: nat, a: int, b: int, lo: int, start: int, bodyEnd: int)
      requires leftCtx == a - lo && start == leftCtx * hop && bodyEnd == start + (b - a) * hop
      ensures start == (a - lo) * hop && bodyEnd == (b - lo) * hop
    {
      Distribute(leftCtx, b - a, hop);
    }

    function Seconds(samples: int): real
      requires Valid()
    {
      samples as real / sr as real
    }

    /** What the loop has produced and counted once every span is done. */
    lemma Totals(chunks: seq<AudioChunk>, latents: Signal)
      requires Valid() && Rate(decoder, hop)
      requires Partition(Bounds(|latents|), 0, |latents|) && Chain(Bounds(|latents|), |latents|)
      requires |chunks| == |Bounds(|latents|)| && forall j :: 0 <= j < |chunks| ==> IsChunk(chunks[j], latents, j)
      ensures Collect(chunks)
        == Streamed(decoder, hop, overlap, crossfadeSamples, fades, latents, Bounds(|latents|), |chunks|)
      ensures |Collect(chunks)| == |latents| * hop
      ensures SumSeconds(chunks) == Seconds(|latents| * hop)
      ensures SumDecoded(chunks) == FramesDecoded(Bounds(|latents|), overlap, |latents|)
      ensures latents != [] ==> SumDecoded(chunks) >= |latents| > 0
    {
      var bounds := Bounds(|latents|);
      assert chunks[..|chunks|] == chunks && bounds[..|bounds|] == bounds;
      Collected(chunks, latents, |chunks|);
      forall j | 0 <= j < |chunks|
        ensures Seconds(Covered(hop, bounds, j)) + chunks[j].audioSeconds == Seconds(Covered(hop, bounds, j + 1))
      {
        ChunkSeconds(chunks[j], latents, j);
      }
      SecondsAddUp(chunks, hop, sr, bounds, |chunks|);
      FramesAddUp(chunks, bounds, overlap, |latents|, |chunks|);
      StreamedLength(decoder, hop, overlap, crossfadeSamples, fades, latents, bounds, |bounds|);
      if latents != [] {
        OverlapTax(bounds, overlap, |latents|);
      }
    }

    lemma {:induction false} Collected(chunks: seq<AudioChunk>, latents: Signal, n: nat)
      requires Valid() && Chain(Bounds(|latents|), |latents|) && n <= |chunks| == |Bounds(|latents|)|
      requires forall j :: 0 <= j < |chunks| ==> IsChunk(chunks[j], latents, j)
      ensures Collect(chunks[..n])
        == Streamed(decoder, hop, overlap, crossfadeSamples, fades, latents, Bounds(|latents|), n)
    {
      if n > 0 {
        Collected(chunks, latents, n - 1);
        assert chunks[..n][..n - 1] == chunks[..n - 1];
      }
    }

    lemma ChunkSeconds(c: AudioChunk, latents: Signal, i: nat)
      requires Valid() && Rate(decoder, hop) && Chain(Bounds(|latents|), |latents|)
      requires i < |Bounds(|latents|)| && IsChunk(c, latents, i)
      ensures Seconds(Covered(hop, Bounds(|latents|), i)) + c.audioSeconds
        == Seconds(Covered(hop, Bounds(|latents|), i + 1))
    {
      BodyLength(decoder, hop, overlap, latents, Bounds(|latents|)[i]);
      CoveredStep(hop, Bounds(|latents|), i, |latents|);
    }

    lemma CoveredStep(hop: nat, bounds: seq<Span>, i: nat, total: nat)
      requires Valid() && Chain(bounds, total) && i < |bounds|
      ensures Seconds(Covered(hop, bounds, i)) + Seconds((bounds[i].b - bounds[i].a) * hop)
        == Seconds(Covered(hop, bounds, i + 1))
    {
      Distribute(bounds[i].a, bounds[i].b - bounds[i].a, hop);
      assert Covered(hop, bounds, i) + (bounds[i].b - bounds[i].a) * hop == Covered(hop, bounds, i + 1);
    }

    /** The in-place blend of the carried tail over the head of the body. */
    method Mixed(carry: seq<real>, body: seq<real>) returns (out: seq<real>)
      ensures out == Blend(carry, body, fades)
    {
      out := body;
      if |carry| > 0 {
        var n := Min(|carry|, |body|);
        var k := 0;
        while k < n
          invariant 0 <= k <= n && |out| == |body|
          invariant forall j :: 0 <= j < k ==> out[j] == Blend(carry, body, fades)[j]
          invariant forall j :: k <= j < |body| ==> out[j] == body[j]
        {
          out := out[k := carry[k] * Get(fades.fadeOut, k) + body[k] * Get(fades.fadeIn, k)];
          k := k + 1;
        }
      }
    }

    /** Without a crossfade, or with the linear one, streaming is invisible: for every utterance
        and every decoder local within the context left beyond the fade, the chunks are the
        single-pass decode. */
    lemma StreamIsDecodeFull(latents: Signal, R: nat)
      requires Valid() && Rate(decoder, hop) && SliceLocal(decoder, hop, R)
      requires R + CeilDiv(crossfadeSamples, hop) <= overlap
      requires crossfadeSamples == 0 || fades == FadeCurves(crossfadeSamples, Linear)
      ensures Chain(Bounds(|latents|), |latents|)
      ensures Streamed(decoder, hop, overlap, crossfadeSamples, fades, latents, Bounds(|latents|), |Bounds(|latents|)|)
        == DecodeFull(latents)
    {
      LinearIsEqualGain(crossfadeSamples);
      PlanIsPartition(0, firstFrames, maxFrames, growth, |latents|);
      EqualGainIsNeutral(decoder, hop, R, overlap, crossfadeSamples, fades, latents, Bounds(|latents|));
    }

    /** Every decoder of radius `R`, at this rate, streams every utterance as its single pass. */
    ghost predicate StreamsInvisibly(R: nat)
      requires Valid()
    {
      forall D: Decoder, z: Signal :: Rate(D, hop) && SliceLocal(D, hop, R) ==> StreamOf(D, z) == D(z)
    }

    /** The stream this synthesizer would make with the decoder `D`. */
    ghost function StreamOf(D: Decoder, z: Signal): seq<real>
      requires Valid()
    {
      PlanIsPartition(0, firstFrames, maxFrames, growth, |z|);
      PartitionIsChain(Bounds(|z|), |z|);
      Streamed(D, hop, overlap, crossfadeSamples, fades, z, Bounds(|z|), |Bounds(|z|)|)
    }

    /** Without a crossfade, overlap at or above the radius is what it takes, no less and no more,
        whatever the first size, the maximum and the growth. */
    lemma InvisibleIffOverlapCovers(R: nat)
      requires Valid() && crossfadeSamples == 0
      ensures StreamsInvisibly(R) <==> R <= overlap
    {
      if R <= overlap {
        forall D: Decoder, z: Signal | Rate(D, hop) && SliceLocal(D, hop, R)
          ensures StreamOf(D, z) == D(z)
        {
          CoveredStream(D, z, R);
        }
      } else {
        EarlyIsLocal(hop, R);
        ClickStream(R, Early(hop, R), Click(firstFrames - 1 + R));
      }
    }

    lemma CoveredStream(D: Decoder, z: Signal, R: nat)
      requires Valid() && crossfadeSamples == 0 && R <= overlap && Rate(D, hop) && SliceLocal(D, hop, R)
      ensures StreamOf(D, z) == D(z)
    {
      PlanIsPartition(0, firstFrames, maxFrames, growth, |z|);
      EqualGainIsNeutral(D, hop, R, overlap, 0, fades, z, Bounds(|z|));
    }

    lemma ClickStream(R: nat, D: Decoder, z: Signal)
      requires Valid() && crossfadeSamples == 0 && overlap < R
      requires D == Early(hop, R) && z == Click(firstFrames - 1 + R)
      ensures StreamOf(D, z) != D(z)
    {
      PlannedClick(hop, R, overlap, fades, firstFrames, maxFrames, growth, Bounds(|z|));
    }

    /** The same for a network of convolutions: overlap at or above its radius, the fade counted
        in, is all it takes. */
    lemma ConvolutionsStreamInvisibly(latents: Signal, net: Net)
      requires Valid() && Nets.Valid(net) && decoder == ConvDecoder(net) && hop == Up(net)
      requires Radius(net) + CeilDiv(crossfadeSamples, hop) <= overlap
      requires crossfadeSamples == 0 || fades == FadeCurves(crossfadeSamples, Linear)
      ensures Chain(Bounds(|latents|), |latents|)
      ensures Streamed(decoder, hop, overlap, crossfadeSamples, fades, latents, Bounds(|latents|), |Bounds(|latents|)|)
        == ConvDecode(net, latents)
    {
      ConvDecoderIsLocal(net, Radius(net));
      StreamIsDecodeFull(latents, Radius(net));
    }

    /** Sample indices where two chunks meet. */
    method SeamPositions(total: nat) returns (seams: seq<int>)
      requires Valid()
      ensures |seams| == Max(0, |Bounds(total)| - 1)
      ensures forall i :: 0 <= i < |seams| ==> seams[i] == Bounds(total)[i].b * hop == Bounds(total)[i + 1].a * hop
    {
      seams := [];
      var a: nat, size: nat := 0, firstFrames;
      ghost var bounds, n := Bounds(total), 0;
      while a < total
        invariant size >= 1 && a <= total && n <= |bounds| && (a < total || n == |bounds|)
        invariant bounds[n..] == Plan(a, size, maxFrames, growth, total)
        invariant |seams| == if a < total then n else Max(0, n - 1)
        invariant seams == Ends(bounds, |seams|)
        decreases total - a
      {
        PlanStep(bounds, n, a, size, maxFrames, growth, total);
        var b := Min(a + size, total);
        EndsSnoc(bounds, n);
        if b < total {
          seams := seams + [b * hop];
        }
        n := n + 1;
        a := b;
        size := NextSize(size, maxFrames, growth);
      }
      SeamsMeet(total, seams);
    }

    lemma SeamsMeet(total: nat, seams: seq<int>)
      requires Valid() && seams == Ends(Bounds(total), |seams|) && |seams| == Max(0, |Bounds(total)| - 1)
      ensures forall i :: 0 <= i < |seams| ==> seams[i] == Bounds(total)[i].b * hop == Bounds(total)[i + 1].a * hop
    {
      var bounds := Bounds(total);
      PlanIsPartition(0, firstFrames, maxFrames, growth, total);
      forall i | 0 <= i < |seams| ensures seams[i] == bounds[i].b * hop == bounds[i + 1].a * hop {
        assert bounds[i].b == bounds[i + 1].a;
      }
    }

    /** The sample after each of the first `n` spans. */
    ghost function Ends(bounds: seq<Span>, n: nat): seq<int> {
      seq(n, i => if 0 <= i < |bounds| then bounds[i].b * hop else 0)
    }

    lemma EndsSnoc(bounds: seq<Span>, n: nat)
      requires n < |bounds|
      ensures Ends(bounds, n + 1) == Ends(bounds, n) + [bounds[n].b * hop]
    {
    }
  }

  /** Of the frames decoded, that share was not kept. */
  lemma WastedIs(total: int, decoded: int)
    requires decoded > 0
    ensures Wasted(total, decoded) * decoded as real == (decoded - total) as real
  {
  }

  /** The share of decoded frames that was thrown away. */
  function Wasted(total: int, decoded: int): real {
    if decoded != 0 then 1.0 - total as real / decoded as real else 0.0
  }
}
