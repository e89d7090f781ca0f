/** Overlapped chunk decoding against the single-pass decode, for any cut of the utterance into
    consecutive spans, any crossfade and any fade curves. */
module Streaming {
  import opened Arith
  import opened Nets
  import opened Decoding
  import opened Planner

  datatype Fades = Fades(fadeOut: seq<real>, fadeIn: seq<real>)

  /** A Python slice between bounds that are not negative: it stops at the end of the sequence. */
  function PySlice(s: seq<real>, from: int, to: int): seq<real> {
    var p := Min(Max(0, from), |s|);
    s[p..Max(p, Min(to, |s|))]
  }

  function Audio(D: Decoder, P: nat, z: Signal, s: Span): seq<real>
    requires 0 <= s.a < s.b <= |z|
  {
    D(z[Lo(P, s)..Hi(P, s, |z|)])
  }

  /** The chunk's own audio, context dropped. */
  function Body(D: Decoder, hop: nat, P: nat, z: Signal, s: Span): seq<real>
    requires 0 <= s.a < s.b <= |z|
  {
    PySlice(Audio(D, P, z, s), (s.a - Lo(P, s)) * hop, (s.b - Lo(P, s)) * hop)
  }

  /** Up to `xf` samples of right context, kept to be blended into the next chunk. */
  function Tail(D: Decoder, hop: nat, P: nat, xf: nat, z: Signal, s: Span): seq<real>
    requires 0 <= s.a < s.b <= |z|
  {
    if s.b >= |z| then []
    else PySlice(Audio(D, P, z, s), (s.b - Lo(P, s)) * hop, (s.b - Lo(P, s)) * hop + xf)
  }

  function Blend(carry: seq<real>, body: seq<real>, fades: Fades): (out: seq<real>)
    ensures |out| == |body|
  {
    seq(|body|, k requires 0 <= k < |body| =>
      if k < |carry| then carry[k] * Get(fades.fadeOut, k) + body[k] * Get(fades.fadeIn, k) else body[k])
  }

  function Carry(D: Decoder, hop: nat, P: nat, xf: nat, z: Signal, spans: seq<Span>, i: nat): seq<real>
    requires Chain(spans, |z|) && i <= |spans|
  {
    if i == 0 then [] else Tail(D, hop, P, xf, z, spans[i - 1])
  }

  /** What chunk `i` sends. */
  function ChunkSamples(D: Decoder, hop: nat, P: nat, xf: nat, fades: Fades, z: Signal, spans: seq<Span>,
      i: nat): seq<real>
    requires Chain(spans, |z|) && i < |spans|
  {
    Blend(Carry(D, hop, P, xf, z, spans, i), Body(D, hop, P, z, spans[i]), fades)
  }

  /** What the first `n` chunks send, end to end. */
  function Streamed(D: Decoder, hop: nat, P: nat, xf: nat, fades: Fades, z: Signal, spans: seq<Span>, n: nat): seq<real>
    requires Chain(spans, |z|) && n <= |spans|
  {
    if n == 0 then []
    else Streamed(D, hop, P, xf, fades, z, spans, n - 1) + ChunkSamples(D, hop, P, xf, fades, z, spans, n - 1)
  }

  /** Samples of the frames the first `n` spans cover. */
  function Covered(hop: nat, spans: seq<Span>, n: nat): int
    requires n <= |spans|
  {
    if n == 0 then 0 else spans[n - 1].b * hop
  }

  // ---------------------------------------------------------------- lengths, unconditionally

  lemma BodyLength(D: Decoder, hop: nat, P: nat, z: Signal, s: Span)
    requires Rate(D, hop) && 0 <= s.a < s.b <= |z|
    ensures 0 <= (s.a - Lo(P, s)) * hop <= (s.b - Lo(P, s)) * hop <= |Audio(D, P, z, s)|
      == (Hi(P, s, |z|) - Lo(P, s)) * hop
    ensures |Body(D, hop, P, z, s)| == (s.b - s.a) * hop
  {
    FrameBounds(D, hop, z[Lo(P, s)..Hi(P, s, |z|)], s.a - Lo(P, s), s.b - Lo(P, s));
    Distribute(s.a - Lo(P, s), s.b - s.a, hop);
  }

  /** Whatever the fade, a chunk of `b - a` frames yields `(b - a) * hop` samples, so `n` chunks
      yield the samples of the frames they cover. */
  lemma {:induction false} StreamedLength(D: Decoder, hop: nat, P: nat, xf: nat, fades: Fades, z: Signal,
      spans: seq<Span>, n: nat)
    requires Rate(D, hop) && Chain(spans, |z|) && n <= |spans|
    ensures |Streamed(D, hop, P, xf, fades, z, spans, n)| == Covered(hop, spans, n)
  {
    if n > 0 {
      StreamedLength(D, hop, P, xf, fades, z, spans, n - 1);
      ChunkLength(D, hop, P, xf, fades, z, spans, n - 1);
    }
  }

  lemma ChunkLength(D: Decoder, hop: nat, P: nat, xf: nat, fades: Fades, z: Signal, spans: seq<Span>, i: nat)
    requires Rate(D, hop) && Chain(spans, |z|) && i < |spans|
    ensures |ChunkSamples(D, hop, P, xf, fades, z, spans, i)| == Covered(hop, spans, i + 1) - Covered(hop, spans, i)
  {
    BodyLength(D, hop, P, z, spans[i]);
    CoveredIs(hop, spans, i, |z|);
    assert (spans[i].b - spans[i].a) * hop == spans[i].b * hop - spans[i].a * hop by {
      Distribute(spans[i].b, -spans[i].a, hop);
    }
  }

  lemma CoveredIs(hop: nat, spans: seq<Span>, i: nat, total: int)
    requires Chain(spans, total) && i < |spans|
    ensures Covered(hop, spans, i) == spans[i].a * hop
  {
  }

  // ---------------------------------------------------------------- against the single pass

  lemma BodyIsOwn(D: Decoder, hop: nat, R: nat, P: nat, z: Signal, s: Span)
    requires Rate(D, hop) && SliceLocal(D, hop, R) && R <= P && 0 <= s.a < s.b <= |z|
    ensures PartOf(Body(D, hop, P, z, s), D(z), s.a * hop) && s.a * hop + |Body(D, hop, P, z, s)| == s.b * hop
  {
    BodyLength(D, hop, P, z, s);
    WindowSamples(D, hop, R, z, Lo(P, s), Hi(P, s, |z|), s.a, s.b);
  }

  /** The carried tail is the audio that follows the chunk, provided the fade leaves `R` frames
      of context beyond it. */
  lemma TailIsOwn(D: Decoder, hop: nat, R: nat, P: nat, xf: nat, z: Signal, s: Span)
    requires Rate(D, hop) && SliceLocal(D, hop, R) && hop >= 1 && R + CeilDiv(xf, hop) <= P
    requires 0 <= s.a < s.b <= |z|
    ensures PartOf(Tail(D, hop, P, xf, z, s), D(z), s.b * hop)
  {
    FrameBounds(D, hop, z, s.b, s.b);
    if s.b < |z| {
      var lo, hi := Lo(P, s), Hi(P, s, |z|);
      var d := Min(s.b + CeilDiv(xf, hop), hi);
      BodyLength(D, hop, P, z, s);
      WindowSamples(D, hop, R, z, lo, hi, s.b, d);
      TailReach(hop, lo, hi, s.b, d, xf);
      PrefixOfSlice(Audio(D, P, z, s), (s.b - lo) * hop, (d - lo) * hop, D(z), s.b * hop, d * hop, xf);
    }
  }

  /** `xf` samples past frame `b` stay before frame `d`, or `d` is where the window ends. */
  lemma TailReach(hop: nat, lo: int, hi: int, b: int, d: int, xf: nat)
    requires hop >= 1 && d == Min(b + CeilDiv(xf, hop), hi)
    ensures xf <= (d - lo) * hop - (b - lo) * hop || (d - lo) * hop == (hi - lo) * hop
  {
    if d == b + CeilDiv(xf, hop) {
      Distribute(b - lo, CeilDiv(xf, hop), hop);
    }
  }

  lemma PrefixOfSlice(s: seq<real>, p: nat, p': nat, t: seq<real>, q: nat, q': nat, n: nat)
    requires p <= p' <= |s| && q <= q' <= |t| && s[p..p'] == t[q..q']
    requires n <= p' - p || p' == |s|
    ensures PartOf(PySlice(s, p, p + n), t, q)
  {
    var k := |PySlice(s, p, p + n)|;
    assert |s[p..p']| == |t[q..q']|;
    assert PySlice(s, p, p + n) == s[p..p + k];
    SliceFront(s, p, p', k);
    SliceFront(t, q, q', k);
  }

  lemma SliceFront(s: seq<real>, p: nat, p': nat, k: nat)
    requires p <= p' <= |s| && k <= p' - p
    ensures s[p..p'][..k] == s[p..p + k]
  {
  }

  /** The factor the blend applies to sample `k` when both sides carry the same audio. */
  function Gain(fades: Fades, carried: nat, k: nat): real {
    if k < carried then Get(fades.fadeOut, k) + Get(fades.fadeIn, k) else 1.0
  }

  /** `part` is what `full` holds from `p` on. */
  ghost predicate PartOf(part: seq<real>, full: seq<real>, p: int) {
    0 <= p <= p + |part| <= |full| && part == full[p..p + |part|]
  }

  lemma BlendOfSame(carry: seq<real>, body: seq<real>, full: seq<real>, p: int, fades: Fades, k: nat)
    requires PartOf(body, full, p) && PartOf(carry, full, p) && k < |body|
    ensures Blend(carry, body, fades)[k] == Get(full, p + k) * Gain(fades, |carry|, k)
    ensures Blend(carry, body, fades)[k] == body[k] <==> Gain(fades, |carry|, k) == 1.0 || Get(full, p + k) == 0.0
  {
    assert body[k] == full[p..p + |body|][k] == full[p + k];
    if k < |carry| {
      assert carry[k] == full[p..p + |carry|][k] == full[p + k];
      UnitGain(full[p + k], Get(fades.fadeOut, k), Get(fades.fadeIn, k));
    }
  }

  lemma UnitGain(v: real, a: real, b: real)
    ensures v * a + v * b == v * (a + b)
    ensures v * a + v * b == v <==> a + b == 1.0 || v == 0.0
  {
    if v * (a + b) == v {
      assert v * (a + b - 1.0) == 0.0;
    }
  }

  /** At each of `n` samples from `p` on the fades add up to one or the audio is silent. */
  ghost predicate NeutralOn(fades: Fades, carried: nat, full: seq<real>, p: int, n: int) {
    forall k :: 0 <= k < n ==> Gain(fades, carried, k) == 1.0 || Get(full, p + k) == 0.0
  }

  lemma BlendIsSame(carry: seq<real>, body: seq<real>, full: seq<real>, p: int, fades: Fades)
    requires PartOf(body, full, p) && PartOf(carry, full, p)
    ensures Blend(carry, body, fades) == body <==> NeutralOn(fades, |carry|, full, p, |body|)
  {
    var out := Blend(carry, body, fades);
    forall k | 0 <= k < |body|
      ensures out[k] == body[k] <==> Gain(fades, |carry|, k) == 1.0 || Get(full, p + k) == 0.0
    {
      BlendOfSame(carry, body, full, p, fades, k);
    }
  }

  /** The two sides of a seam both carry the single-pass audio. */
  lemma SeamSides(D: Decoder, hop: nat, R: nat, P: nat, xf: nat, z: Signal, spans: seq<Span>, i: nat, p: int)
    requires Rate(D, hop) && SliceLocal(D, hop, R) && hop >= 1 && R + CeilDiv(xf, hop) <= P
    requires Chain(spans, |z|) && i < |spans| && p == spans[i].a * hop
    ensures PartOf(Body(D, hop, P, z, spans[i]), D(z), p) && p + |Body(D, hop, P, z, spans[i])| == spans[i].b * hop
    ensures PartOf(Carry(D, hop, P, xf, z, spans, i), D(z), p)
  {
    BodyIsOwn(D, hop, R, P, z, spans[i]);
    if i > 0 {
      TailIsOwn(D, hop, R, P, xf, z, spans[i - 1]);
    }
  }

  /** Chunk `i` is the single-pass audio of its frames, times the gain of the fade pair over the
      carried samples: with enough context the seams carry no other error. */
  lemma ChunkIsGain(D: Decoder, hop: nat, R: nat, P: nat, xf: nat, fades: Fades, z: Signal, spans: seq<Span>, i: nat,
      p: nat, k: nat)
    requires Rate(D, hop) && SliceLocal(D, hop, R) && hop >= 1 && R + CeilDiv(xf, hop) <= P
    requires Chain(spans, |z|) && i < |spans| && p == spans[i].a * hop
    requires k < |ChunkSamples(D, hop, P, xf, fades, z, spans, i)|
    ensures ChunkSamples(D, hop, P, xf, fades, z, spans, i)[k]
      == Get(D(z), p + k) * Gain(fades, |Carry(D, hop, P, xf, z, spans, i)|, k)
  {
    SeamSides(D, hop, R, P, xf, z, spans, i, p);
    BlendOfSame(Carry(D, hop, P, xf, z, spans, i), Body(D, hop, P, z, spans[i]), D(z), p, fades, k);
  }

  ghost predicate EqualGain(fades: Fades, xf: nat) {
    forall k :: 0 <= k < xf ==> Get(fades.fadeOut, k) + Get(fades.fadeIn, k) == 1.0
  }

  lemma CarryLength(D: Decoder, hop: nat, P: nat, xf: nat, z: Signal, spans: seq<Span>, i: nat)
    requires Chain(spans, |z|) && i <= |spans|
    ensures |Carry(D, hop, P, xf, z, spans, i)| <= xf
  {
    if i > 0 {
      var s := spans[i - 1];
      var p := (s.b - Lo(P, s)) * hop;
      PySliceLength(Audio(D, P, z, s), p, xf);
    }
  }

  lemma PySliceLength(s: seq<real>, p: nat, n: nat)
    ensures |PySlice(s, p, p + n)| <= n
  {
  }

  /** At each sample of chunk `i` the fades add up to one or the audio is silent. */
  ghost predicate NeutralFade(D: Decoder, hop: nat, P: nat, xf: nat, fades: Fades, z: Signal, spans: seq<Span>, i: nat)
    requires Chain(spans, |z|) && i < |spans|
  {
    NeutralOn(fades, |Carry(D, hop, P, xf, z, spans, i)|, D(z), spans[i].a * hop, |Body(D, hop, P, z, spans[i])|)
  }

  /** Chunk `i` is exactly its part of the single pass if and only if its fade is neutral. */
  lemma ChunkIsSinglePass(D: Decoder, hop: nat, R: nat, P: nat, xf: nat, fades: Fades, z: Signal, spans: seq<Span>,
      i: nat)
    requires Rate(D, hop) && SliceLocal(D, hop, R) && hop >= 1 && R + CeilDiv(xf, hop) <= P
    requires Chain(spans, |z|) && i < |spans|
    ensures 0 <= spans[i].a * hop <= spans[i].b * hop <= |D(z)|
    ensures ChunkSamples(D, hop, P, xf, fades, z, spans, i) == D(z)[spans[i].a * hop..spans[i].b * hop]
      <==> NeutralFade(D, hop, P, xf, fades, z, spans, i)
  {
    SeamSides(D, hop, R, P, xf, z, spans, i, spans[i].a * hop);
    BlendIsSame(Carry(D, hop, P, xf, z, spans, i), Body(D, hop, P, z, spans[i]), D(z), spans[i].a * hop, fades);
  }

  /** The stream equals the single-pass decode sample for sample if and only if every chunk's
      fade is neutral, for any cut into consecutive spans and any fade curves. */
  lemma {:induction false} StreamIsSinglePass(D: Decoder, hop: nat, R: nat, P: nat, xf: nat, fades: Fades, z: Signal,
      spans: seq<Span>, n: nat)
    requires Rate(D, hop) && SliceLocal(D, hop, R) && hop >= 1 && R + CeilDiv(xf, hop) <= P
    requires Chain(spans, |z|) && n <= |spans|
    ensures 0 <= Covered(hop, spans, n) <= |D(z)|
    ensures Streamed(D, hop, P, xf, fades, z, spans, n) == D(z)[..Covered(hop, spans, n)]
      <==> AllNeutral(D, hop, P, xf, fades, z, spans, n)
  {
    if n > 0 {
      StreamIsSinglePass(D, hop, R, P, xf, fades, z, spans, n - 1);
      OneMoreChunk(D, hop, R, P, xf, fades, z, spans, n - 1, n);
      NeutralSnoc(D, hop, P, xf, fades, z, spans, n - 1, n);
    } else {
      NothingStreamed(D, hop, P, xf, fades, z, spans);
    }
  }

  lemma NothingStreamed(D: Decoder, hop: nat, P: nat, xf: nat, fades: Fades, z: Signal, spans: seq<Span>)
    requires Chain(spans, |z|)
    ensures Covered(hop, spans, 0) == 0 && Streamed(D, hop, P, xf, fades, z, spans, 0) == D(z)[..0]
    ensures AllNeutral(D, hop, P, xf, fades, z, spans, 0)
  {
  }

  /** The fades of the first `n` chunks are neutral. */
  ghost predicate AllNeutral(D: Decoder, hop: nat, P: nat, xf: nat, fades: Fades, z: Signal, spans: seq<Span>, n: nat)
    requires Chain(spans, |z|) && n <= |spans|
  {
    forall i :: 0 <= i < n ==> NeutralFade(D, hop, P, xf, fades, z, spans, i)
  }

  lemma NeutralSnoc(D: Decoder, hop: nat, P: nat, xf: nat, fades: Fades, z: Signal, spans: seq<Span>, i: nat, n: nat)
    requires Chain(spans, |z|) && i < |spans| && n == i + 1
    ensures AllNeutral(D, hop, P, xf, fades, z, spans, n)
      <==> AllNeutral(D, hop, P, xf, fades, z, spans, i) && NeutralFade(D, hop, P, xf, fades, z, spans, i)
  {
  }

  lemma OneMoreChunk(D: Decoder, hop: nat, R: nat, P: nat, xf: nat, fades: Fades, z: Signal, spans: seq<Span>, i: nat,
      n: nat)
    requires Rate(D, hop) && SliceLocal(D, hop, R) && hop >= 1 && R + CeilDiv(xf, hop) <= P
    requires Chain(spans, |z|) && i < |spans| && n == i + 1
    ensures 0 <= Covered(hop, spans, i) <= Covered(hop, spans, n) <= |D(z)|
    ensures Streamed(D, hop, P, xf, fades, z, spans, n) == D(z)[..Covered(hop, spans, n)]
      <==>
      && Streamed(D, hop, P, xf, fades, z, spans, i) == D(z)[..Covered(hop, spans, i)]
      && NeutralFade(D, hop, P, xf, fades, z, spans, i)
  {
    ChunkIsSinglePass(D, hop, R, P, xf, fades, z, spans, i);
    StreamedLength(D, hop, P, xf, fades, z, spans, i);
    CoveredIs(hop, spans, i, |z|);
    AppendSlices(Streamed(D, hop, P, xf, fades, z, spans, i),
                 ChunkSamples(D, hop, P, xf, fades, z, spans, i), D(z), spans[i].a * hop, spans[i].b * hop);
  }

  lemma AppendSlices(u: seq<real>, v: seq<real>, t: seq<real>, p: nat, q: nat)
    requires p <= q <= |t| && |u| == p
    ensures u + v == t[..q] <==> u == t[..p] && v == t[p..q]
  {
    if u + v == t[..q] {
      assert (u + v)[..p] == u && (u + v)[p..] == v;
      assert t[..q][..p] == t[..p] && t[..q][p..] == t[p..q];
    } else {
      assert t[..p] + t[p..q] == t[..q];
    }
  }

  lemma EqualGainNeutral(fades: Fades, xf: nat, carried: nat, full: seq<real>, p: int, n: int)
    requires EqualGain(fades, xf) && carried <= xf
    ensures NeutralOn(fades, carried, full, p, n)
  {
  }

  /** With a fade pair that adds up to one the crossfade is neutral: the stream is the single
      pass for every fade length that leaves the decoder its context. */
  lemma EqualGainIsNeutral(D: Decoder, hop: nat, R: nat, P: nat, xf: nat, fades: Fades, z: Signal, spans: seq<Span>)
    requires Rate(D, hop) && SliceLocal(D, hop, R) && hop >= 1 && R + CeilDiv(xf, hop) <= P
    requires Partition(spans, 0, |z|) && EqualGain(fades, xf)
    ensures Chain(spans, |z|) && Streamed(D, hop, P, xf, fades, z, spans, |spans|) == D(z)
  {
    PartitionIsChain(spans, |z|);
    forall i | 0 <= i < |spans| ensures NeutralFade(D, hop, P, xf, fades, z, spans, i) {
      CarryLength(D, hop, P, xf, z, spans, i);
      EqualGainNeutral(fades, xf, |Carry(D, hop, P, xf, z, spans, i)|, D(z), spans[i].a * hop,
        |Body(D, hop, P, z, spans[i])|);
    }
    StreamIsSinglePass(D, hop, R, P, xf, fades, z, spans, |spans|);
    assert |D(z)| == hop * |z|;
  }

  // ---------------------------------------------------------------- the overlap is needed

  /** A decoder that sounds each frame `R` frames early. */
  function Early(hop: nat, R: nat): Decoder {
    z => EarlyAudio(hop, R, z)
  }

  function EarlyAudio(hop: nat, R: nat, z: Signal): seq<real> {
    seq(hop * |z|, n requires 0 <= n < hop * |z| => Get(At(z, n / hop + R), 0))
  }

  lemma EarlySample(hop: nat, R: nat, z: Signal, f: int, j: int)
    requires 0 <= j < hop
    ensures Sample(EarlyAudio(hop, R, z), hop, f, j) == if 0 <= f < |z| then Get(At(z, f + R), 0) else 0.0
  {
    DivUnique(f, hop, j);
    InBlock(f, hop, j, |z|);
  }

  lemma EarlyIsLocal(hop: nat, R: nat)
    ensures Rate(Early(hop, R), hop) && SliceLocal(Early(hop, R), hop, R)
  {
    forall z: Signal, lo: int, hi: int, f: int | InContext(z, lo, hi, f, R)
      ensures SameBlock(hop, Early(hop, R)(z[lo..hi]), f - lo, Early(hop, R)(z), f)
    {
      EarlyBlock(hop, R, z, lo, hi, f);
    }
  }

  lemma EarlyAlike(hop: nat, R: nat, x: Signal, f: int, z: Signal, g: int, j: int)
    requires 0 <= j < hop && 0 <= f < |x| && 0 <= g < |z| && At(x, f + R) == At(z, g + R)
    ensures Sample(EarlyAudio(hop, R, x), hop, f, j) == Sample(EarlyAudio(hop, R, z), hop, g, j)
  {
    EarlySample(hop, R, x, f, j);
    EarlySample(hop, R, z, g, j);
  }

  lemma EarlyBlock(hop: nat, R: nat, z: Signal, lo: int, hi: int, f: int)
    requires InContext(z, lo, hi, f, R)
    ensures SameBlock(hop, EarlyAudio(hop, R, z[lo..hi]), f - lo, EarlyAudio(hop, R, z), f)
  {
    EarlyFrame(R, z, lo, hi, f);
    forall j | 0 <= j < hop
      ensures Sample(EarlyAudio(hop, R, z[lo..hi]), hop, f - lo, j) == Sample(EarlyAudio(hop, R, z), hop, f, j)
    {
      EarlyAlike(hop, R, z[lo..hi], f - lo, z, f, j);
    }
  }

  lemma EarlyFrame(R: nat, z: Signal, lo: int, hi: int, f: int)
    requires InContext(z, lo, hi, f, R)
    ensures At(z[lo..hi], f - lo + R) == At(z, f + R)
  {
  }

  /** One loud frame after `n` silent ones. */
  function Click(n: nat): (z: Signal)
    ensures |z| == n + 1
  {
    seq(n, _ => [0.0]) + [[1.0]]
  }

  /** Overlap below the radius is not enough: for every overlap `P < R` and every cut whose first
      span has `m` frames there is a decoder of radius `R` and an utterance for which the first
      sample of frame `m - 1` comes out silent instead of loud. */
  lemma ShorterOverlapClicks(hop: nat, R: nat, P: nat, fades: Fades, m: nat, spans: seq<Span>, k: int)
    requires hop >= 1 && m >= 1 && P < R && Partition(spans, 0, m + R) && spans[0] == Span(0, m) && k == (m - 1) * hop
    ensures Rate(Early(hop, R), hop) && SliceLocal(Early(hop, R), hop, R) && Chain(spans, m + R)
    ensures
      var full := Early(hop, R)(Click(m - 1 + R));
      var streamed := Streamed(Early(hop, R), hop, P, 0, fades, Click(m - 1 + R), spans, |spans|);
      0 <= k < |full| == |streamed| && full[k] == 1.0 && streamed[k] == 0.0
  {
    EarlyIsLocal(hop, R);
    PartitionIsChain(spans, m + R);
    StreamedAll(Early(hop, R), hop, P, fades, Click(m - 1 + R), spans);
    ClickIsLoud(hop, R, m - 1, k);
    ClickIsMissed(hop, R, P, fades, m, spans, k);
  }

  lemma ClickIsHeardApart(hop: nat, R: nat, P: nat, fades: Fades, m: nat, spans: seq<Span>)
    requires hop >= 1 && m >= 1 && P < R && Partition(spans, 0, m + R) && spans[0] == Span(0, m)
    ensures Chain(spans, m + R)
    ensures Streamed(Early(hop, R), hop, P, 0, fades, Click(m - 1 + R), spans, |spans|)
      != Early(hop, R)(Click(m - 1 + R))
  {
    ShorterOverlapClicks(hop, R, P, fades, m, spans, (m - 1) * hop);
  }

  lemma StreamedAll(D: Decoder, hop: nat, P: nat, fades: Fades, z: Signal, spans: seq<Span>)
    requires Rate(D, hop) && Partition(spans, 0, |z|) && Chain(spans, |z|)
    ensures |Streamed(D, hop, P, 0, fades, z, spans, |spans|)| == |D(z)|
  {
    StreamedLength(D, hop, P, 0, fades, z, spans, |spans|);
    assert |D(z)| == hop * |z|;
  }

  lemma ClickIsLoud(hop: nat, R: nat, f: nat, k: int)
    requires hop >= 1 && k == f * hop
    ensures 0 <= k < |EarlyAudio(hop, R, Click(f + R))| == (f + R + 1) * hop
    ensures EarlyAudio(hop, R, Click(f + R))[k] == 1.0
  {
    EarlyAt(hop, R, Click(f + R), f, k);
    assert At(Click(f + R), f + R) == [1.0];
  }

  lemma ClickIsMissed(hop: nat, R: nat, P: nat, fades: Fades, m: nat, spans: seq<Span>, k: int)
    requires hop >= 1 && m >= 1 && P < R && Chain(spans, m + R) && spans != [] && spans[0] == Span(0, m)
    requires k == (m - 1) * hop && Rate(Early(hop, R), hop)
    ensures var streamed := Streamed(Early(hop, R), hop, P, 0, fades, Click(m - 1 + R), spans, |spans|);
      0 <= k < |streamed| && streamed[k] == 0.0
  {
    var z := Click(m - 1 + R);
    FirstChunk(Early(hop, R), hop, P, fades, z, spans, m, k);
    StartOfStream(Early(hop, R), hop, P, fades, z, spans, |spans|, k);
    WindowIsSilent(hop, R, P, z[0..m + P], m, k);
  }

  lemma WindowIsSilent(hop: nat, R: nat, P: nat, x: Signal, m: nat, k: int)
    requires hop >= 1 && m >= 1 && P < R && |x| == m + P && k == (m - 1) * hop
    ensures 0 <= k < |EarlyAudio(hop, R, x)| && EarlyAudio(hop, R, x)[k] == 0.0
  {
    EarlyAt(hop, R, x, m - 1, k);
    assert At(x, m - 1 + R) == [];
  }

  lemma EarlyAt(hop: nat, R: nat, z: Signal, f: nat, k: int)
    requires hop >= 1 && f < |z| && k == f * hop
    ensures 0 <= k < |EarlyAudio(hop, R, z)| == |z| * hop && EarlyAudio(hop, R, z)[k] == Get(At(z, f + R), 0)
  {
    EarlySample(hop, R, z, f, 0);
    InBlock(f, hop, 0, |z|);
  }

  /** Without a crossfade the first chunk is the head of its window's audio. */
  lemma FirstChunk(D: Decoder, hop: nat, P: nat, fades: Fades, z: Signal, spans: seq<Span>, m: nat, k: int)
    requires Rate(D, hop) && hop >= 1 && m >= 1 && Chain(spans, |z|) && spans != [] && spans[0] == Span(0, m)
    requires k == (m - 1) * hop
    ensures var audio, chunk := D(z[0..Min(|z|, m + P)]), ChunkSamples(D, hop, P, 0, fades, z, spans, 0);
      0 <= k < |chunk| <= |audio| && chunk[k] == audio[k]
  {
    var audio := Audio(D, P, z, spans[0]);
    BodyLength(D, hop, P, z, spans[0]);
    Distribute(m - 1, 1, hop);
    MulMono(0, m - 1, hop);
    HeadOfSlice(audio, m * hop, fades, k);
  }

  lemma HeadOfSlice(audio: seq<real>, n: nat, fades: Fades, k: nat)
    requires k < n <= |audio|
    ensures |Blend([], PySlice(audio, 0, n), fades)| == n && Blend([], PySlice(audio, 0, n), fades)[k] == audio[k]
  {
  }

  /** The stream starts with the first chunk. */
  lemma {:induction false} StartOfStream(D: Decoder, hop: nat, P: nat, fades: Fades, z: Signal, spans: seq<Span>,
      n: nat, k: nat)
    requires Chain(spans, |z|) && 0 < n <= |spans| && k < |ChunkSamples(D, hop, P, 0, fades, z, spans, 0)|
    ensures k < |Streamed(D, hop, P, 0, fades, z, spans, n)|
    ensures Streamed(D, hop, P, 0, fades, z, spans, n)[k] == ChunkSamples(D, hop, P, 0, fades, z, spans, 0)[k]
  {
    if n > 1 {
      StartOfStream(D, hop, P, fades, z, spans, n - 1, k);
    }
  }
}
