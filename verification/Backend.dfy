/** `tts_stream`: what a decoded, trimmed and zero-padded window is, window by window. */
module Backend {
  import opened Arith
  import opened Nets
  import opened Decoding
  import opened Planner
  import opened Streaming
  import opened Chunked

  datatype Config = Config(
    firstChunk: int, maxChunk: int, growth: real, overlap: int, hop: int, minWindow: int, channels: int)

  datatype ConfigError = BadChunkFrames | NegativeOverlap

  datatype Checked = Accepted | Refused(error: ConfigError)

  function CheckConfig(cfg: Config): Checked {
    if cfg.firstChunk < 1 || cfg.maxChunk < cfg.firstChunk then Refused(BadChunkFrames)
    else if cfg.overlap < 0 then Refused(NegativeOverlap)
    else Accepted
  }

  // `hop`, `channels` and `minWindow` are not checked by the source; sizes of buffers make
  // sense only when they are not negative, and a decoder has at least one sample per frame.
  predicate Usable(cfg: Config) {
    CheckConfig(cfg) == Accepted && cfg.hop >= 1 && cfg.channels >= 0 && cfg.minWindow >= 0
  }

  /** The spans of an utterance of `total` frames. */
  function Chunks(cfg: Config, total: nat): seq<Span>
    requires Usable(cfg)
  {
    Plan(0, cfg.firstChunk, cfg.maxChunk, cfg.growth, total)
  }

  /** Latents zero-extended at the end to at least `n` frames. */
  function PadTo(z: Signal, n: int, channels: nat): (y: Signal)
    ensures |y| == Max(|z|, n)
  {
    z + ZeroFrames(n - |z|, channels)
  }

  /** The PCM of `keepFrames` frames from `keepFrom` on, decoded from the window `[lo, hi)`. */
  function WindowPcm(D: Decoder, cfg: Config, z: Signal, lo: nat, hi: nat, keepFrom: nat, keepFrames: nat): seq<int>
    requires Usable(cfg) && lo <= keepFrom && lo <= hi <= |z|
  {
    ToPcm(PySlice(D(PadTo(z[lo..hi], cfg.minWindow, cfg.channels)), (keepFrom - lo) * cfg.hop,
      (keepFrom - lo + keepFrames) * cfg.hop))
  }

  /** The PCM sent for one span. */
  function ChunkPcm(D: Decoder, cfg: Config, z: Signal, s: Span): seq<int>
    requires Usable(cfg) && 0 <= s.a < s.b <= |z|
  {
    WindowPcm(D, cfg, z, Lo(cfg.overlap, s), Hi(cfg.overlap, s, |z|), s.a, s.b - s.a)
  }

  /** A chunk of `b - a` frames has their samples, whatever the decoder does with them. */
  lemma ChunkPcmLength(D: Decoder, cfg: Config, z: Signal, s: Span)
    requires Usable(cfg) && Rate(D, cfg.hop) && 0 <= s.a < s.b <= |z|
    ensures |ChunkPcm(D, cfg, z, s)| == (s.b - s.a) * cfg.hop >= 1
  {
    var lo, hi := Lo(cfg.overlap, s), Hi(cfg.overlap, s, |z|);
    var y := PadTo(z[lo..hi], cfg.minWindow, cfg.channels);
    FrameBounds(D, cfg.hop, y, s.a - lo, s.b - lo);
    Distribute(s.a - lo, s.b - s.a, cfg.hop);
    MulMono(1, s.b - s.a, cfg.hop);
  }

  function SentPcm(D: Decoder, cfg: Config, z: Signal, spans: seq<Span>, n: nat): seq<int>
    requires Usable(cfg) && Chain(spans, |z|) && n <= |spans|
  {
    if n == 0 then [] else SentPcm(D, cfg, z, spans, n - 1) + ChunkPcm(D, cfg, z, spans[n - 1])
  }

  // ---------------------------------------------------------------- when is a window padded?

  /** With a minimum of at most `P + 1` frames a window falls short of it exactly when the whole
      utterance does, and then the window is the whole utterance. */
  lemma PaddedExactlyWhenShort(cfg: Config, total: nat, s: Span)
    requires Usable(cfg) && cfg.minWindow <= cfg.overlap + 1 && 0 <= s.a < s.b <= total
    ensures Hi(cfg.overlap, s, total) - Lo(cfg.overlap, s) < cfg.minWindow <==> total < cfg.minWindow
    ensures total < cfg.minWindow ==> Lo(cfg.overlap, s) == 0 && Hi(cfg.overlap, s, total) == total
  {
  }

  predicate IsPadded(cfg: Config, total: nat, s: Span)
    requires Usable(cfg)
  {
    Hi(cfg.overlap, s, total) - Lo(cfg.overlap, s) < cfg.minWindow
  }

  /** Above `P + 1` the planner itself asks for padded windows of long utterances: beyond every
      length there is one whose planned last chunk, of one frame, is padded. */
  lemma LargerMinimumPadsLongUtterances(cfg: Config, N: nat) returns (total: nat)
    requires Usable(cfg) && cfg.minWindow > cfg.overlap + 1
    ensures total >= N && total >= cfg.minWindow && Chunks(cfg, total) != []
    ensures var last := Chunks(cfg, total)[|Chunks(cfg, total)| - 1];
      last == Span(total - 1, total) && IsPadded(cfg, total, last)
  {
    var m: nat := Max(N, cfg.minWindow);
    SizesFromGrow(cfg.firstChunk, cfg.maxChunk, cfg.growth, 0, m);
    total := SizesFrom(cfg.firstChunk, cfg.maxChunk, cfg.growth, 0, m) + 1;
    OneFrameLeft(0, cfg.firstChunk, cfg.maxChunk, cfg.growth, 0, m, total);
  }

  /** No planned window of an utterance of at least the minimum is padded. */
  ghost predicate OnlyShortArePadded(cfg: Config)
    requires Usable(cfg)
  {
    forall total: nat, i: nat :: cfg.minWindow <= total && i < |Chunks(cfg, total)| ==>
      !IsPadded(cfg, total, Chunks(cfg, total)[i])
  }

  lemma OnlyShortArePaddedIff(cfg: Config)
    requires Usable(cfg)
    ensures OnlyShortArePadded(cfg) <==> cfg.minWindow <= cfg.overlap + 1
  {
    if cfg.minWindow <= cfg.overlap + 1 {
      forall total: nat, i: nat | cfg.minWindow <= total && i < |Chunks(cfg, total)|
        ensures !IsPadded(cfg, total, Chunks(cfg, total)[i])
      {
        PlanSpan(cfg.firstChunk, cfg.maxChunk, cfg.growth, total, i);
        PaddedExactlyWhenShort(cfg, total, Chunks(cfg, total)[i]);
      }
    } else {
      var total := LargerMinimumPadsLongUtterances(cfg, 0);
      assert IsPadded(cfg, total, Chunks(cfg, total)[|Chunks(cfg, total)| - 1]);
    }
  }

  // ---------------------------------------------------------------- what is sent

  lemma ToPcmSlice(audio: seq<real>, p: nat, q: nat)
    requires p <= q <= |audio|
    ensures ToPcm(audio[p..q]) == ToPcm(audio)[p..q]
  {
  }

  /** With nothing to pad, a chunk is the PCM of the trimmed window. */
  lemma ChunkPcmIsBody(D: Decoder, cfg: Config, z: Signal, s: Span)
    requires Usable(cfg) && cfg.minWindow <= cfg.overlap + 1 && cfg.minWindow <= |z| && 0 <= s.a < s.b <= |z|
    ensures ChunkPcm(D, cfg, z, s) == ToPcm(Body(D, cfg.hop, cfg.overlap, z, s))
  {
    var lo, hi := Lo(cfg.overlap, s), Hi(cfg.overlap, s, |z|);
    PaddedExactlyWhenShort(cfg, |z|, s);
    assert PadTo(z[lo..hi], cfg.minWindow, cfg.channels) == z[lo..hi];
    assert s.a - lo + (s.b - s.a) == s.b - lo;
  }

  /** A long enough utterance: each chunk is the quantised single-pass audio of its frames. */
  lemma LongChunk(D: Decoder, cfg: Config, R: nat, z: Signal, s: Span)
    requires Usable(cfg) && Rate(D, cfg.hop) && SliceLocal(D, cfg.hop, R)
    requires R <= cfg.overlap && cfg.minWindow <= cfg.overlap + 1 && cfg.minWindow <= |z|
    requires 0 <= s.a < s.b <= |z|
    ensures 0 <= s.a * cfg.hop <= s.b * cfg.hop <= |D(z)|
    ensures ChunkPcm(D, cfg, z, s) == ToPcm(D(z))[s.a * cfg.hop..s.b * cfg.hop]
  {
    FrameBounds(D, cfg.hop, z, s.a, s.b);
    ChunkPcmIsBody(D, cfg, z, s);
    BodyIsOwn(D, cfg.hop, R, cfg.overlap, z, s);
    ToPcmSlice(D(z), s.a * cfg.hop, s.b * cfg.hop);
  }

  /** A short utterance: each chunk is the audio of its frames in the decode of the utterance
      zero-extended to the minimum; no locality is involved. */
  lemma ShortChunk(D: Decoder, cfg: Config, z: Signal, s: Span)
    requires Usable(cfg) && Rate(D, cfg.hop)
    requires cfg.minWindow <= cfg.overlap + 1 && |z| < cfg.minWindow
    requires 0 <= s.a < s.b <= |z|
    ensures 0 <= s.a * cfg.hop <= s.b * cfg.hop <= |D(PadTo(z, cfg.minWindow, cfg.channels))|
    ensures ChunkPcm(D, cfg, z, s) == ToPcm(D(PadTo(z, cfg.minWindow, cfg.channels)))[s.a * cfg.hop..s.b * cfg.hop]
  {
    PaddedExactlyWhenShort(cfg, |z|, s);
    var y := PadTo(z, cfg.minWindow, cfg.channels);
    assert z[0..|z|] == z;
    FrameBounds(D, cfg.hop, y, s.a, s.b);
    ToPcmSlice(D(y), s.a * cfg.hop, s.b * cfg.hop);
  }

  /** The latents whose single-pass decode the backend streams. */
  function Effective(cfg: Config, z: Signal): Signal
    requires Usable(cfg)
  {
    PadTo(z, cfg.minWindow, cfg.channels)
  }

  /** Full characterisation: the PCM of all chunks is the quantised decode of the utterance
      zero-extended to the engine's minimum, cut to the utterance's own samples.  For utterances
      of at least the minimum that is the quantised single-pass decode. */
  lemma {:induction false} StreamCharacterised(D: Decoder, cfg: Config, R: nat, z: Signal, spans: seq<Span>, n: nat)
    requires Usable(cfg) && Rate(D, cfg.hop) && SliceLocal(D, cfg.hop, R)
    requires R <= cfg.overlap && cfg.minWindow <= cfg.overlap + 1
    requires Chain(spans, |z|) && n <= |spans|
    ensures 0 <= Covered(cfg.hop, spans, n) <= |D(Effective(cfg, z))|
    ensures SentPcm(D, cfg, z, spans, n) == ToPcm(D(Effective(cfg, z)))[..Covered(cfg.hop, spans, n)]
  {
    if n > 0 {
      StreamCharacterised(D, cfg, R, z, spans, n - 1);
      if |z| < cfg.minWindow {
        ShortChunk(D, cfg, z, spans[n - 1]);
      } else {
        assert Effective(cfg, z) == z;
        LongChunk(D, cfg, R, z, spans[n - 1]);
      }
      JoinPcm(ToPcm(D(Effective(cfg, z))), spans[n - 1].a * cfg.hop, spans[n - 1].b * cfg.hop);
    }
  }

  lemma JoinPcm(pcm: seq<int>, p: nat, q: nat)
    requires p <= q <= |pcm|
    ensures pcm[..p] + pcm[p..q] == pcm[..q]
  {
  }

  lemma SentIsSinglePass(D: Decoder, cfg: Config, R: nat, z: Signal)
    requires Usable(cfg) && Rate(D, cfg.hop) && SliceLocal(D, cfg.hop, R)
    requires R <= cfg.overlap && cfg.minWindow <= cfg.overlap + 1
    ensures Chain(Chunks(cfg, |z|), |z|)
    ensures |z| * cfg.hop <= |D(Effective(cfg, z))|
    ensures SentPcm(D, cfg, z, Chunks(cfg, |z|), |Chunks(cfg, |z|)|) == ToPcm(D(Effective(cfg, z)))[..|z| * cfg.hop]
    ensures |z| >= cfg.minWindow ==>
      Effective(cfg, z) == z && SentPcm(D, cfg, z, Chunks(cfg, |z|), |Chunks(cfg, |z|)|) == ToPcm(D(z))
  {
    var spans := Chunks(cfg, |z|);
    PlanIsPartition(0, cfg.firstChunk, cfg.maxChunk, cfg.growth, |z|);
    PartitionIsChain(spans, |z|);
    StreamCharacterised(D, cfg, R, z, spans, |spans|);
    AllCovered(cfg.hop, spans, |z|);
    if |z| >= cfg.minWindow {
      assert Effective(cfg, z) == z;
      WholePcm(D, cfg.hop, z);
    }
  }

  lemma WholePcm(D: Decoder, hop: nat, z: Signal)
    requires Rate(D, hop)
    ensures 0 <= |z| * hop <= |ToPcm(D(z))| && ToPcm(D(z))[..|z| * hop] == ToPcm(D(z))
  {
    assert |D(z)| == hop * |z|;
  }

  lemma AllCovered(hop: nat, spans: seq<Span>, total: nat)
    requires Partition(spans, 0, total)
    ensures Covered(hop, spans, |spans|) == total * hop
  {
  }

  // ---------------------------------------------------------------- is the bound on the minimum needed?

  /** A decoder that falls silent on the last frame it is given. */
  function Tailing(hop: nat): Decoder {
    z => TailingAudio(hop, z)
  }

  function TailingAudio(hop: nat, z: Signal): seq<real> {
    seq(hop * |z|, n requires 0 <= n < hop * |z| => if n / hop + 1 < |z| then 1.0 else 0.0)
  }

  lemma TailingSample(hop: nat, z: Signal, f: int, j: int)
    requires 0 <= j < hop
    ensures Sample(TailingAudio(hop, z), hop, f, j) == if 0 <= f && f + 1 < |z| then 1.0 else 0.0
  {
    DivUnique(f, hop, j);
    InBlock(f, hop, j, |z|);
  }

  lemma TailingIsLocal(hop: nat, R: nat)
    requires R >= 1
    ensures Rate(Tailing(hop), hop) && SliceLocal(Tailing(hop), hop, R)
  {
    forall z: Signal, lo: int, hi: int, f: int | InContext(z, lo, hi, f, R)
      ensures SameBlock(hop, Tailing(hop)(z[lo..hi]), f - lo, Tailing(hop)(z), f)
    {
      TailingBlock(hop, z[lo..hi], f - lo, z, f);
    }
  }

  lemma TailingBlock(hop: nat, x: Signal, f: int, z: Signal, g: int)
    requires 0 <= f < |x| && 0 <= g < |z| && (f + 1 < |x| <==> g + 1 < |z|)
    ensures SameBlock(hop, TailingAudio(hop, x), f, TailingAudio(hop, z), g)
  {
    forall j | 0 <= j < hop
      ensures Sample(TailingAudio(hop, x), hop, f, j) == Sample(TailingAudio(hop, z), hop, g, j)
    {
      TailingSample(hop, x, f, j);
      TailingSample(hop, z, g, j);
    }
  }

  /** The last sample of frame `f`. */
  lemma TailingEnd(hop: nat, z: Signal, f: nat, k: int)
    requires hop >= 1 && f < |z| && k == (f + 1) * hop - 1
    ensures 0 <= k < |TailingAudio(hop, z)| == hop * |z|
    ensures TailingAudio(hop, z)[k] == if f + 1 < |z| then 1.0 else 0.0
  {
    TailingSample(hop, z, f, hop - 1);
    Distribute(f, 1, hop);
    InBlock(f, hop, hop - 1, |z|);
  }

  /** Frame by frame decoders are not disturbed by padding: no bound on the minimum is needed. */
  lemma FramewiseChunk(D: Decoder, cfg: Config, z: Signal, s: Span)
    requires Usable(cfg) && Rate(D, cfg.hop) && SliceLocal(D, cfg.hop, 0) && 0 <= s.a < s.b <= |z|
    ensures ChunkIsPart(D, cfg, z, ToPcm(D(z)), s)
  {
    var lo, hi := Lo(cfg.overlap, s), Hi(cfg.overlap, s, |z|);
    var y := PadTo(z[lo..hi], cfg.minWindow, cfg.channels);
    assert y[0..hi - lo] == z[lo..hi];
    WindowSamples(D, cfg.hop, 0, y, 0, hi - lo, s.a - lo, s.b - lo);
    WindowSamples(D, cfg.hop, 0, z, lo, hi, s.a, s.b);
    ToPcmSlice(D(z), s.a * cfg.hop, s.b * cfg.hop);
  }

  /** The chunk's PCM is its own part of `pcm`. */
  ghost predicate ChunkIsPart(D: Decoder, cfg: Config, z: Signal, pcm: seq<int>, s: Span)
    requires Usable(cfg) && 0 <= s.a < s.b <= |z|
  {
    0 <= s.a * cfg.hop <= s.b * cfg.hop <= |pcm| && ChunkPcm(D, cfg, z, s) == pcm[s.a * cfg.hop..s.b * cfg.hop]
  }

  lemma {:induction false} PartsJoin(D: Decoder, cfg: Config, z: Signal, pcm: seq<int>, spans: seq<Span>, n: nat)
    requires Usable(cfg) && Chain(spans, |z|) && n <= |spans|
    requires forall i :: 0 <= i < |spans| ==> ChunkIsPart(D, cfg, z, pcm, spans[i])
    ensures 0 <= Covered(cfg.hop, spans, n) <= |pcm|
    ensures SentPcm(D, cfg, z, spans, n) == pcm[..Covered(cfg.hop, spans, n)]
  {
    if n > 0 {
      PartsJoin(D, cfg, z, pcm, spans, n - 1);
      assert ChunkIsPart(D, cfg, z, pcm, spans[n - 1]);
      CoveredIs(cfg.hop, spans, n - 1, |z|);
      JoinPcm(pcm, spans[n - 1].a * cfg.hop, spans[n - 1].b * cfg.hop);
    }
  }

  /** All PCM of an utterance. */
  ghost function AllPcm(D: Decoder, cfg: Config, z: Signal): seq<int>
    requires Usable(cfg)
  {
    PlanIsPartition(0, cfg.firstChunk, cfg.maxChunk, cfg.growth, |z|);
    PartitionIsChain(Chunks(cfg, |z|), |z|);
    SentPcm(D, cfg, z, Chunks(cfg, |z|), |Chunks(cfg, |z|)|)
  }

  lemma FramewiseIsSinglePass(D: Decoder, cfg: Config, z: Signal)
    requires Usable(cfg) && Rate(D, cfg.hop) && SliceLocal(D, cfg.hop, 0)
    ensures AllPcm(D, cfg, z) == ToPcm(D(z))
  {
    var spans := Chunks(cfg, |z|);
    PlanIsPartition(0, cfg.firstChunk, cfg.maxChunk, cfg.growth, |z|);
    PartitionIsChain(spans, |z|);
    forall i | 0 <= i < |spans| ensures ChunkIsPart(D, cfg, z, ToPcm(D(z)), spans[i]) {
      FramewiseChunk(D, cfg, z, spans[i]);
    }
    PartsJoin(D, cfg, z, ToPcm(D(z)), spans, |spans|);
    AllCovered(cfg.hop, spans, |z|);
    WholePcm(D, cfg.hop, z);
  }

  /** A padded last chunk of one frame comes out loud where the single pass is silent. */
  lemma PaddedChunkIsWrong(cfg: Config, z: Signal, k: int, w: int)
    requires Usable(cfg) && cfg.minWindow > cfg.overlap + 1 && |z| >= cfg.minWindow
    requires k == |z| * cfg.hop - 1 && w == (cfg.overlap + 1) * cfg.hop - 1
    ensures 0 <= k < |TailingAudio(cfg.hop, z)| && TailingAudio(cfg.hop, z)[k] == 0.0
    ensures var pcm := ChunkPcm(Tailing(cfg.hop), cfg, z, Span(|z| - 1, |z|)); pcm != [] && pcm[|pcm| - 1] == 32767
  {
    var lo := |z| - 1 - cfg.overlap;
    var y := PadTo(z[lo..|z|], cfg.minWindow, cfg.channels);
    TailingEnd(cfg.hop, z, |z| - 1, k);
    TailingEnd(cfg.hop, y, cfg.overlap, w);
    Distribute(cfg.overlap, 1, cfg.hop);
    MulMono(0, cfg.overlap, cfg.hop);
    EndOfSlice(TailingAudio(cfg.hop, y), cfg.overlap * cfg.hop, w);
  }

  lemma EndOfSlice(audio: seq<real>, p: nat, w: nat)
    requires p <= w < |audio| && audio[w] == 1.0
    ensures var pcm := ToPcm(PySlice(audio, p, w + 1)); pcm != [] && pcm[|pcm| - 1] == 32767
  {
  }

  /** Every decoder of radius `R` is streamed as its single pass, for every utterance of at least
      the minimum. */
  ghost predicate LongStreamsInvisibly(cfg: Config, R: nat)
    requires Usable(cfg)
  {
    forall D: Decoder, z: Signal :: Rate(D, cfg.hop) && SliceLocal(D, cfg.hop, R) && |z| >= cfg.minWindow ==>
      AllPcm(D, cfg, z) == ToPcm(D(z))
  }

  /** The exact condition, for a radius within the overlap: the minimum is at most `P + 1`, or the
      decoder does not look at neighbours at all. */
  lemma LongStreamsInvisiblyIff(cfg: Config, R: nat)
    requires Usable(cfg) && R <= cfg.overlap
    ensures LongStreamsInvisibly(cfg, R) <==> R == 0 || cfg.minWindow <= cfg.overlap + 1
  {
    if R == 0 || cfg.minWindow <= cfg.overlap + 1 {
      forall D: Decoder, z: Signal | Rate(D, cfg.hop) && SliceLocal(D, cfg.hop, R) && |z| >= cfg.minWindow
        ensures AllPcm(D, cfg, z) == ToPcm(D(z))
      {
        if R == 0 { FramewiseIsSinglePass(D, cfg, z); } else { SentIsSinglePass(D, cfg, R, z); }
      }
    } else {
      var total := LargerMinimumPadsLongUtterances(cfg, 0);
      var z: Signal := seq(total, _ => []);
      TailingIsLocal(cfg.hop, R);
      LastSampleIsWrong(cfg, z);
    }
  }

  lemma LastSampleIsWrong(cfg: Config, z: Signal)
    requires Usable(cfg) && cfg.minWindow > cfg.overlap + 1 && |z| >= cfg.minWindow && Chunks(cfg, |z|) != []
    requires Chunks(cfg, |z|)[|Chunks(cfg, |z|)| - 1] == Span(|z| - 1, |z|)
    ensures AllPcm(Tailing(cfg.hop), cfg, z) != ToPcm(Tailing(cfg.hop)(z))
  {
    PlanIsPartition(0, cfg.firstChunk, cfg.maxChunk, cfg.growth, |z|);
    PartitionIsChain(Chunks(cfg, |z|), |z|);
    PaddedChunkIsWrong(cfg, z, |z| * cfg.hop - 1, (cfg.overlap + 1) * cfg.hop - 1);
    EndsDiffer(SentPcm(Tailing(cfg.hop), cfg, z, Chunks(cfg, |z|), |Chunks(cfg, |z|)| - 1),
               ChunkPcm(Tailing(cfg.hop), cfg, z, Span(|z| - 1, |z|)), TailingAudio(cfg.hop, z), |z| * cfg.hop - 1);
  }

  lemma EndsDiffer(front: seq<int>, chunk: seq<int>, audio: seq<real>, k: int)
    requires chunk != [] && chunk[|chunk| - 1] == 32767 && 0 <= k == |audio| - 1 && audio[k] == 0.0
    ensures front + chunk != ToPcm(audio)
  {
    var pcm := front + chunk;
    assert pcm[|pcm| - 1] == 32767 && ToPcm(audio)[k] == 0;
  }

  // ---------------------------------------------------------------- warm-up and buffers

  function MaxWindow(cfg: Config): int {
    Max(cfg.maxChunk + 2 * cfg.overlap, cfg.minWindow)
  }

  /** The window shapes the warm-up runs. */
  function WarmShapes(cfg: Config): seq<int>
    requires Usable(cfg)
  {
    var sizes := WarmSizes(cfg.firstChunk, cfg.maxChunk, cfg.growth);
    seq(|sizes|, i requires 0 <= i < |sizes| => Max(sizes[i] + 2 * cfg.overlap, cfg.minWindow))
  }

  function WindowFrames(cfg: Config, total: nat, s: Span): int
    requires Usable(cfg)
  {
    Max(Hi(cfg.overlap, s, total) - Lo(cfg.overlap, s), cfg.minWindow)
  }

  /** Every window the planner can ask for fits the buffers, and the window of every chunk that
      is not the last and has full context on both sides has been warmed. */
  lemma WindowsFitAndAreWarm(cfg: Config, total: nat, i: nat)
    requires Usable(cfg) && i < |Chunks(cfg, total)|
    ensures var s := Chunks(cfg, total)[i];
      && 0 <= s.a < s.b <= total
      && WindowFrames(cfg, total, s) <= MaxWindow(cfg)
      && (s.b < total && cfg.overlap <= s.a && s.b + cfg.overlap <= total ==>
        WindowFrames(cfg, total, s) in WarmShapes(cfg))
  {
    PlanSpan(cfg.firstChunk, cfg.maxChunk, cfg.growth, total, i);
    ShapeIsWarm(cfg, i);
  }

  lemma ShapeIsWarm(cfg: Config, i: nat)
    requires Usable(cfg)
    ensures Max(SizeAt(cfg.firstChunk, cfg.maxChunk, cfg.growth, i) + 2 * cfg.overlap, cfg.minWindow) in WarmShapes(cfg)
  {
    EverySizeIsWarmed(cfg.firstChunk, cfg.maxChunk, cfg.growth, 0, i);
    var sizes := WarmSizes(cfg.firstChunk, cfg.maxChunk, cfg.growth);
    var k :| 0 <= k < |sizes| && sizes[k] == SizeAt(cfg.firstChunk, cfg.maxChunk, cfg.growth, i);
    assert WarmShapes(cfg)[k] == Max(sizes[k] + 2 * cfg.overlap, cfg.minWindow);
  }
}
