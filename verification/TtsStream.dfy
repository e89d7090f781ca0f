/** `ModelInstanceState`: buffers sized once and overwritten for every window, and the response
    protocol of `ProcessRequests` under arbitrary API failures. */
module TtsStream {
  import opened Arith
  import opened Nets
  import opened Decoding
  import opened Planner
  import opened Streaming
  import opened Chunked
  import opened Backend
  import opened Options
  import opened Protocol

  /** A `[C, T]` tensor stored row by row, read as frames. */
  function Frames(buffer: seq<real>, channels: nat, frames: nat): (z: Signal)
    ensures |z| == frames
  {
    seq(frames, t => seq(channels, c => Get(buffer, c * frames + t)))
  }

  /** One channel of a window: its own frames, then zeros up to the window length. */
  function Row(latents: seq<real>, total: nat, lo: nat, hi: nat, window: nat, c: nat): (row: seq<real>)
    requires lo <= hi <= total && hi - lo <= window
    ensures |row| == window
  {
    seq(window, t => if t < hi - lo then Get(latents, c * total + lo + t) else 0.0)
  }

  function Rows(latents: seq<real>, total: nat, lo: nat, hi: nat, window: nat, n: nat): seq<real>
    requires lo <= hi <= total && hi - lo <= window
  {
    if n == 0 then [] else Rows(latents, total, lo, hi, window, n - 1) + Row(latents, total, lo, hi, window, n - 1)
  }

  lemma {:induction false} RowsAt(latents: seq<real>, total: nat, lo: nat, hi: nat, window: nat, n: nat, c: nat,
      t: nat, k: int)
    requires lo <= hi <= total && hi - lo <= window && t < window && c < n && k == c * window + t
    ensures Get(Rows(latents, total, lo, hi, window, n), k) == Row(latents, total, lo, hi, window, c)[t]
  {
    var before := Rows(latents, total, lo, hi, window, n - 1);
    RowsLength(latents, total, lo, hi, window, n - 1);
    RowEnds(c, window, t, n - 1, |before|, k);
    GetConcat(before, Row(latents, total, lo, hi, window, n - 1), k);
    if c < n - 1 {
      RowsAt(latents, total, lo, hi, window, n - 1, c, t, k);
    }
  }

  lemma RowEnds(c: nat, window: nat, t: nat, n: nat, p: int, k: int)
    requires t < window && c <= n && p == n * window && k == c * window + t
    ensures 0 <= k && (k < p <==> c < n) && (c == n ==> k - p == t)
  {
    InBlock(c, window, t, n);
    MulMono(0, c, window);
  }

  lemma GetConcat(a: seq<real>, b: seq<real>, k: int)
    requires 0 <= k
    ensures Get(a + b, k) == if k < |a| then Get(a, k) else Get(b, k - |a|)
  {
  }

  lemma {:induction false} RowsLength(latents: seq<real>, total: nat, lo: nat, hi: nat, window: nat, n: nat)
    requires lo <= hi <= total && hi - lo <= window
    ensures |Rows(latents, total, lo, hi, window, n)| == n * window
  {
    if n > 0 {
      RowsLength(latents, total, lo, hi, window, n - 1);
      Distribute(n - 1, 1, window);
    }
  }

  /** The strided upload is the window of the latents, zero-extended at the end. */
  lemma RowsAreWindow(latents: seq<real>, channels: nat, total: nat, lo: nat, hi: nat, window: nat, buffer: seq<real>)
    requires lo <= hi <= total && hi - lo <= window
    requires |buffer| >= channels * window
    requires buffer[..channels * window] == Rows(latents, total, lo, hi, window, channels)
    ensures Frames(buffer, channels, window)
      == Frames(latents, channels, total)[lo..hi] + ZeroFrames(window - (hi - lo), channels)
  {
    var y := Frames(latents, channels, total)[lo..hi] + ZeroFrames(window - (hi - lo), channels);
    forall t | 0 <= t < window
      ensures Frames(buffer, channels, window)[t] == y[t]
    {
      forall c | 0 <= c < channels
        ensures Get(buffer, c * window + t) == y[t][c]
      {
        UploadedAt(latents, channels, total, lo, hi, window, buffer, c, t, channels * window, c * window + t);
        RowIsFrame(latents, channels, total, lo, hi, window, c, t);
      }
    }
  }

  lemma UploadedAt(latents: seq<real>, channels: nat, total: nat, lo: nat, hi: nat, window: nat, buffer: seq<real>,
      c: nat, t: nat, p: nat, k: int)
    requires lo <= hi <= total && hi - lo <= window && c < channels && t < window
    requires p == channels * window <= |buffer| && k == c * window + t
    requires buffer[..p] == Rows(latents, total, lo, hi, window, channels)
    ensures Get(buffer, k) == Row(latents, total, lo, hi, window, c)[t]
  {
    RowsAt(latents, total, lo, hi, window, channels, c, t, k);
    RowEnds(c, window, t, channels, p, k);
    assert Get(buffer, k) == Get(buffer[..p], k);
  }

  lemma RowIsFrame(latents: seq<real>, channels: nat, total: nat, lo: nat, hi: nat, window: nat, c: nat, t: nat)
    requires lo <= hi <= total && hi - lo <= window && c < channels && t < window
    ensures Row(latents, total, lo, hi, window, c)[t]
      == (Frames(latents, channels, total)[lo..hi] + ZeroFrames(window - (hi - lo), channels))[t][c]
  {
  }

  /** A run of values copied into a buffer. */
  method Copy(dst: array<real>, offset: nat, src: seq<real>)
    requires offset + |src| <= dst.Length
    modifies dst
    ensures dst[..offset + |src|] == old(dst[..offset]) + src
  {
    for i := 0 to |src|
      invariant dst[..offset + i] == old(dst[..offset]) + src[..i]
    {
      dst[offset + i] := src[i];
      assert dst[..offset + i + 1] == dst[..offset + i] + [src[i]];
    }
  }

  lemma PlaneIn(c: nat, channels: nat, total: nat, lo: nat, hi: nat)
    requires c < channels && lo <= hi <= total
    ensures 0 <= c * total + lo <= c * total + hi <= channels * total
    ensures c * total + total == (c + 1) * total <= channels * total
  {
    MulMono(c + 1, channels, total);
  }

  class ModelInstanceState {
    const cfg: Config
    const engine: Decoder
    const dIn: array<real>
    const dOut: array<real>
    const hOut: array<real>
    var warmed: seq<int>
    const api: Api
    var calls: nat

    predicate Valid() {
      && Usable(cfg)
      && dIn.Length == cfg.channels * MaxWindow(cfg)
      && dOut.Length == hOut.Length == MaxWindow(cfg) * cfg.hop
      && dIn != dOut && dOut != hOut && dIn != hOut
    }

    /** Set-up as the server sees it: context, device, stream, the two buffers, the first copy, one
        call for every shape, and the final wait.  Nothing comes of it when any of them fails,
        except that a shape the engine refuses is passed over. */
    static method Create(cfg: Config, engine: Decoder, api: Api) returns (s: ModelInstanceState?)
      requires Usable(cfg)
      ensures s != null <==> Succeed(api, 0, 6) && api(6 + |WarmShapes(cfg)|)
      ensures s != null ==> fresh(s) && s.Valid() && fresh(s.dIn) && fresh(s.dOut) && fresh(s.hOut)
      ensures s != null ==> s.cfg == cfg && s.engine == engine && s.api == api
      ensures s != null ==> s.warmed == Taken(api, 6, WarmShapes(cfg)) && s.calls == 7 + |WarmShapes(cfg)|
    {
      if !(api(0) && api(1) && api(2) && api(3) && api(4) && api(5)) {
        return null;
      }
      s := new ModelInstanceState.Init(cfg, engine, api, 6);
      var synced := s.Call();
      if !synced {
        return null;
      }
    }

    constructor Init(cfg: Config, engine: Decoder, api: Api, n: nat)
      requires Usable(cfg)
      ensures Valid() && fresh(dIn) && fresh(dOut) && fresh(hOut)
      ensures this.cfg == cfg && this.engine == engine && this.api == api
      ensures warmed == Taken(api, n, WarmShapes(cfg)) && calls == n + |WarmShapes(cfg)|
    {
      this.cfg := cfg;
      this.engine := engine;
      this.api := api;
      MulMono(0, MaxWindow(cfg), cfg.hop);
      MulMono(0, MaxWindow(cfg), cfg.channels);
      dIn := new real[cfg.channels * MaxWindow(cfg)](_ => 0.0);
      dOut := new real[MaxWindow(cfg) * cfg.hop];
      hOut := new real[MaxWindow(cfg) * cfg.hop];
      var shapes := WarmUp(cfg);
      var warm: seq<int> := [];
      for i := 0 to |shapes|
        invariant warm == Taken(api, n, shapes[..i])
      {
        TakenSnoc(api, n, shapes, i);
        if api(n + i) {
          warm := warm + [shapes[i]];
        }
      }
      assert shapes[..|shapes|] == shapes;
      warmed, calls := warm, n + |shapes|;
    }

    /** The shapes visited by the warm-up loop. */
    static method WarmUp(cfg: Config) returns (shapes: seq<int>)
      requires Usable(cfg)
      ensures shapes == WarmShapes(cfg)
    {
      var size: nat := cfg.firstChunk;
      shapes := [];
      ghost var sizes, n := WarmSizes(cfg.firstChunk, cfg.maxChunk, cfg.growth), 0;
      while true
        invariant 1 <= size <= cfg.maxChunk && n < |sizes| && |shapes| == n
        invariant sizes[n..] == WarmSizes(size, cfg.maxChunk, cfg.growth)
        invariant forall i :: 0 <= i < n ==> shapes[i] == Max(sizes[i] + 2 * cfg.overlap, cfg.minWindow)
        decreases cfg.maxChunk - size
      {
        WarmStep(sizes, n, size, cfg.maxChunk, cfg.growth);
        shapes := shapes + [Max(size + 2 * cfg.overlap, cfg.minWindow)];
        if size >= cfg.maxChunk {
          break;
        }
        n := n + 1;
        size := NextSize(size, cfg.maxChunk, cfg.growth);
      }
    }

    // -------------------------------------------------------------- DecodeWindow

    /** Copies one window channel by channel and zero-fills each row up to the window length. */
    method Upload(latents: seq<real>, total: nat, lo: nat, hi: nat, window: nat)
      requires Valid() && lo <= hi <= total && |latents| >= cfg.channels * total
      requires hi - lo <= window <= MaxWindow(cfg)
      modifies dIn
      ensures Frames(dIn[..], cfg.channels, window)
        == Frames(latents, cfg.channels, total)[lo..hi] + ZeroFrames(window - (hi - lo), cfg.channels)
    {
      MulMono(window, MaxWindow(cfg), cfg.channels);
      var c := 0;
      while c < cfg.channels
        invariant 0 <= c <= cfg.channels && 0 <= c * window <= dIn.Length
        invariant dIn[..c * window] == Rows(latents, total, lo, hi, window, c)
      {
        PlaneIn(c, cfg.channels, total, lo, hi);
        PlaneIn(c, cfg.channels, window, 0, window);
        UploadRow(latents, total, lo, hi, window, c, c * total, c * window);
        c := c + 1;
      }
      RowsAreWindow(latents, cfg.channels, total, lo, hi, window, dIn[..]);
    }

    /** One channel: its row starts at `from` in the latents and at `to` in the buffer. */
    method UploadRow(latents: seq<real>, total: nat, lo: nat, hi: nat, window: nat, ghost c: nat, from: int, to: int)
      requires Valid() && lo <= hi <= total && hi - lo <= window
      requires from == c * total && 0 <= from + lo <= from + hi <= |latents| && 0 <= to <= to + window <= dIn.Length
      modifies dIn
      ensures dIn[..to + window] == old(dIn[..to]) + Row(latents, total, lo, hi, window, c)
    {
      var own := hi - lo;
      var run := latents[from + lo..from + hi];
      RowIs(latents, total, lo, hi, window, c, from, run);
      Copy(dIn, to, run);
      if window > own {
        Copy(dIn, to + own, seq(window - own, _ => 0.0));
      }
    }

    static lemma RowIs(latents: seq<real>, total: nat, lo: nat, hi: nat, window: nat, c: nat, from: int, own: seq<real>)
      requires lo <= hi <= total && hi - lo <= window && from == c * total && 0 <= from + lo <= from + hi <= |latents|
      requires own == latents[from + lo..from + hi]
      ensures Row(latents, total, lo, hi, window, c) == own + seq(window - (hi - lo), _ => 0.0)
    {
      forall t | 0 <= t < hi - lo ensures Row(latents, total, lo, hi, window, c)[t] == own[t] {
        var at := c * total + lo + t;
        assert at == from + lo + t && Row(latents, total, lo, hi, window, c)[t] == Get(latents, at);
        assert own[t] == latents[at];
      }
    }

    /** Decodes one window and returns the PCM of the frames to keep, or nothing when a CUDA or
        TensorRT call fails (`ok` false).  Every buffer access is within bounds. */
    method DecodeWindow(latents: seq<real>, total: nat, lo: nat, hi: nat, keepFrom: nat, keepFrames: nat, ok: bool)
      returns (pcm: Option<seq<int>>)
      requires Valid() && Rate(engine, cfg.hop)
      requires lo <= keepFrom && keepFrom + keepFrames <= hi <= total && |latents| >= cfg.channels * total
      requires hi - lo <= MaxWindow(cfg)
      modifies dIn, dOut, hOut
      ensures pcm.Some? <==> ok
      ensures ok ==>
        pcm.value == WindowPcm(engine, cfg, Frames(latents, cfg.channels, total), lo, hi, keepFrom, keepFrames)
      ensures ok ==> |pcm.value| == keepFrames * cfg.hop
    {
      ghost var z := Frames(latents, cfg.channels, total);
      var window := Max(hi - lo, cfg.minWindow);
      Upload(latents, total, lo, hi, window);
      if !ok {
        return None;
      }
      assert Frames(dIn[..], cfg.channels, window) == PadTo(z[lo..hi], cfg.minWindow, cfg.channels);
      Execute(window);
      WindowBounds(cfg.hop, keepFrom - lo, keepFrames, window);
      var out := Convert((keepFrom - lo) * cfg.hop, keepFrames * cfg.hop);
      SliceOfPrefix(hOut[..], window * cfg.hop, (keepFrom - lo) * cfg.hop, keepFrames * cfg.hop);
      return Some(out);
    }

    static lemma SliceOfPrefix(buffer: seq<real>, n: nat, start: nat, count: nat)
      requires start + count <= n <= |buffer|
      ensures buffer[start..start + count] == PySlice(buffer[..n], start, start + count)
    {
    }

    /** Runs the engine on the uploaded window and copies the waveform back to the host. */
    method Execute(window: nat)
      requires Valid() && Rate(engine, cfg.hop) && window <= MaxWindow(cfg)
      modifies dOut, hOut
      ensures 0 <= window * cfg.hop <= hOut.Length
      ensures hOut[..window * cfg.hop] == engine(Frames(old(dIn[..]), cfg.channels, window))
    {
      var wave := engine(Frames(dIn[..], cfg.channels, window));
      MulMono(window, MaxWindow(cfg), cfg.hop);
      MulMono(0, window, cfg.hop);
      Copy(dOut, 0, wave);
      Copy(hOut, 0, dOut[..window * cfg.hop]);
    }

    method Convert(start: nat, count: nat) returns (pcm: seq<int>)
      requires start + count <= hOut.Length
      ensures pcm == ToPcm(hOut[start..start + count])
    {
      pcm := [];
      var i := 0;
      while i < count
        invariant 0 <= i <= count && |pcm| == i
        invariant forall k :: 0 <= k < i ==> pcm[k] == Quantise(hOut[start..start + count][k])
      {
        var v := Clip(hOut[start + i]);
        pcm := pcm + [Trunc(v * 32767.0)];
        i := i + 1;
      }
    }

    static lemma WindowBounds(hop: nat, skip: nat, keep: nat, window: nat)
      requires skip + keep <= window
      ensures 0 <= skip * hop <= skip * hop + keep * hop == (skip + keep) * hop <= window * hop
    {
      MulMono(skip + keep, window, hop);
      Distribute(skip, keep, hop);
    }

    // -------------------------------------------------------------- ProcessRequests

    method Call() returns (ok: bool)
      modifies this`calls
      ensures calls == old(calls) + 1 && ok == api(old(calls))
    {
      ok := api(calls);
      calls := calls + 1;
    }

    /** The tensor checks of a request. */
    predicate Acceptable(r: Request) {
      r.fp32 && |r.shape| == 3 && r.shape[1] == cfg.channels && r.shape[2] >= 1
    }

    /** The server delivers at least the values of one batch element; the leading dimension is not
        looked at, and of a larger tensor only the first element is read. */
    predicate Delivered(r: Request) {
      Acceptable(r) ==> |r.buffer| >= cfg.channels * r.shape[2]
    }

    function Latents(r: Request): Signal
      requires cfg.channels >= 0 && Acceptable(r)
    {
      Frames(r.buffer, cfg.channels, r.shape[2])
    }

    /** The audio an accepted request asks for, chunk by chunk. */
    ghost function Pcms(r: Request): (pcms: seq<seq<int>>)
      requires Usable(cfg)
    {
      if !Acceptable(r) then []
      else PlannedPcms(engine, cfg, Latents(r))
    }

    /** What becomes of request `r` when its first call is number `n`. */
    ghost function RunOf(r: Request, n: nat): Run
      requires Usable(cfg)
    {
      Serve(api, n, Acceptable(r), Pcms(r))
    }

    ghost function LogOf(r: Request, n: nat): seq<Event>
      requires Usable(cfg)
    {
      Log(RunOf(r, n).posts, |Pcms(r)|, RunOf(r, n).ending)
    }

    /** Sends the error, if a response can be had, and gives factory and request back. */
    method Fail() returns (events: seq<Event>)
      modifies this`calls
      ensures events == Closing(Aborted(false, ReportOf(api, old(calls))))
      ensures forall orphan :: calls == Abort(api, old(calls), orphan).next
    {
      events := [];
      var response := Call();
      if response {
        var arrives := Call();
        events := [ResponseNew, Send(Failure, true, arrives)];
      }
      events := events + [FactoryDelete, Release];
    }

    /** Attaches a scalar output to a response, unless one of the two calls fails. */
    method Attach<T>(value: T) returns (attached: Option<T>)
      modifies this`calls
      ensures attached == if Attached(api, old(calls)) then Some(value) else None
      ensures calls == AttachEnd(api, old(calls))
    {
      attached := None;
      var output := Call();
      if output {
        var buffer := Call();
        if buffer {
          attached := Some(value);
        }
      }
    }

    /** Builds the response for a chunk whose first call was `n`: nothing, an orphan, or a message
        ready to be sent. */
    method Respond(pcm: seq<int>, i: nat, last: bool, ghost n: nat)
        returns (events: seq<Event>, message: Option<Message>)
      requires calls == n + 1 && api(n)
      modifies this`calls
      ensures events == if api(n + 1) then [ResponseNew] else []
      ensures message == if Ready(api, n) then Some(ChunkMessage(api, n, pcm, i, last)) else None
      ensures calls == if Ready(api, n) then SendCall(api, n) else BreakEnd(api, n)
    {
      events, message := [], None;
      var response := Call();
      if response {
        events := [ResponseNew];
        var output := Call();
        if output {
          var buffer := Call();
          if buffer {
            var index := Attach(i);
            var isFinal := Attach(last);
            message := Some(Audio(pcm, index, isFinal));
          }
        }
      }
    }

    /** Serves one request: the calls that fail decide its log. */
    method ProcessRequest(r: Request) returns (log: seq<Event>)
      requires Valid() && Rate(engine, cfg.hop) && Delivered(r)
      modifies this`calls, dIn, dOut, hOut
      ensures log == LogOf(r, old(calls)) && calls == RunOf(r, old(calls)).next
      ensures !r.fp32 || |r.shape| != 3 || r.shape[1] != cfg.channels || r.shape[2] < 1 ==>
        Succeed(api, old(calls), old(calls) + 5) ==>
        log == [FactoryNew, ResponseNew, Send(Failure, true, true), FactoryDelete, Release]
      ensures r.fp32 && |r.shape| == 3 && r.shape[1] == cfg.channels && r.shape[2] >= 1 ==>
        Succeed(api, old(calls), old(calls) + 4 + 9 * |Pcms(r)|) ==>
        log == Log(Wholes(Pcms(r), 0, |Pcms(r)|), |Pcms(r)|, Complete)
    {
      Outcomes(r, calls);
      var factory := Call();
      if !factory {
        NotStarted(r, old(calls));
        return [Release];
      }
      log := Answer(r, old(calls));
    }

    /** Checks the request and streams its audio, or reports why not. */
    method Answer(r: Request, ghost n: nat) returns (log: seq<Event>)
      requires Valid() && Rate(engine, cfg.hop) && Delivered(r) && api(n) && calls == n + 1
      modifies this`calls, dIn, dOut, hOut
      ensures log == LogOf(r, n) && calls == RunOf(r, n).next
    {
      var accepted := Check(r);
      if accepted {
        log := StreamChunks(r);
        Started(r, n);
      } else {
        GivenUp(r, n, calls);
        var failure := Fail();
        log := [FactoryNew] + failure;
      }
    }

    /** When no call fails: a refused tensor leaves one error response, any other all its chunks. */
    lemma Outcomes(r: Request, n: nat)
      requires Usable(cfg)
      ensures !Acceptable(r) && Succeed(api, n, n + 5) ==>
        LogOf(r, n) == [FactoryNew, ResponseNew, Send(Failure, true, true), FactoryDelete, Release]
      ensures Acceptable(r) && Succeed(api, n, n + 4 + 9 * |Pcms(r)|) ==>
        LogOf(r, n) == Log(Wholes(Pcms(r), 0, |Pcms(r)|), |Pcms(r)|, Complete)
    {
      if !Acceptable(r) {
        if Succeed(api, n, n + 5) { RefusedTensorLog(api, n, Pcms(r)); }
      } else if Succeed(api, n, n + 4 + 9 * |Pcms(r)|) {
        AllSucceed(api, n, Pcms(r), n + 4 + 9 * |Pcms(r)|);
      }
    }

    lemma NotStarted(r: Request, n: nat)
      requires Usable(cfg) && !api(n)
      ensures LogOf(r, n) == [Release] && RunOf(r, n).next == n + 1
    {
    }

    lemma Started(r: Request, n: nat)
      requires Usable(cfg) && api(n) && InputOk(api, n + 1, Acceptable(r))
      ensures RunOf(r, n) == Stream(api, n + 4, Pcms(r), 0)
      ensures LogOf(r, n) == StreamLog(api, n + 4, Pcms(r))
    {
    }

    lemma GivenUp(r: Request, n: nat, m: nat)
      requires Usable(cfg) && api(n) && !InputOk(api, n + 1, Acceptable(r)) && m == InputEnd(api, n + 1, Acceptable(r))
      ensures LogOf(r, n) == [FactoryNew] + Closing(Aborted(false, ReportOf(api, m)))
      ensures RunOf(r, n).next == Abort(api, m, false).next
    {
      EarlyAbort(api, n, Acceptable(r), Pcms(r), m);
    }

    /** Looks up the input, its properties and its buffer. */
    method Check(r: Request) returns (accepted: bool)
      modifies this`calls
      ensures accepted <==> InputOk(api, old(calls), Acceptable(r))
      ensures calls == InputEnd(api, old(calls), Acceptable(r))
    {
      accepted := false;
      var input := Call();
      if input {
        var properties := Call();
        if properties && r.fp32 && |r.shape| == 3 && r.shape[1] == cfg.channels && r.shape[2] >= 1 {
          accepted := Call();
        }
      }
    }

    /** Decodes and sends chunk after chunk; a send that fails is not noticed. */
    method StreamChunks(r: Request) returns (log: seq<Event>)
      requires Valid() && Rate(engine, cfg.hop) && Delivered(r) && Acceptable(r)
      modifies this`calls, dIn, dOut, hOut
      ensures log == StreamLog(api, old(calls), Pcms(r)) && calls == Stream(api, old(calls), Pcms(r), 0).next
    {
      var total: nat := r.shape[2];
      ghost var start, pcms := calls, Pcms(r);
      var chunks := PlanChunks(total);
      PlannedCount(engine, cfg, Latents(r));
      ghost var posts := [];
      log := [FactoryNew];
      var i := 0;
      while i < |chunks|
        invariant |posts| == i <= |chunks| == |pcms|
        invariant Underway(api, start, pcms, log, posts, calls)
      {
        ghost var n := calls;
        var events, failed := SendChunk(r, chunks, i);
        if failed {
          UnderwayBroken(api, start, pcms, log, posts, n);
          return log + events;
        }
        ghost var post := PostOf(api, n, pcms, i);
        UnderwayNext(api, start, pcms, log, posts, n, post, events, calls);
        log := log + events;
        posts := posts + [post];
        i := i + 1;
      }
      UnderwayDone(api, start, pcms, log, posts, calls);
      log := log + [FactoryDelete, Release];
    }

    /** Sends chunk `i`, or reports the failure and gives everything back. */
    method SendChunk(r: Request, chunks: seq<Span>, i: nat) returns (events: seq<Event>, failed: bool)
      requires Valid() && Rate(engine, cfg.hop) && Delivered(r) && Acceptable(r)
      requires chunks == Chunks(cfg, r.shape[2]) && i < |chunks| == |Pcms(r)|
      modifies this`calls, dIn, dOut, hOut
      ensures var n := old(calls);
        && failed == !Ready(api, n)
        && (failed ==>
              && events == OrphanOf(api, n) + Closing(Aborted(false, ReportOf(api, BreakEnd(api, n))))
              && calls == Abort(api, BreakEnd(api, n), true).next)
        && (!failed ==>
              && events == SendOf(PostOf(api, n, Pcms(r), i), i + 1 == |chunks|)
              && calls == SendCall(api, n) + 1)
    {
      var message;
      events, message := HandleChunk(r, chunks, i);
      if message == None {
        var failure := Fail();
        return events + failure, true;
      }
      var arrives := Call();
      return [ResponseNew, Send(message.value, i + 1 == |chunks|, arrives)], false;
    }

    /** Decodes chunk `i` and builds its response. */
    method HandleChunk(r: Request, chunks: seq<Span>, i: nat) returns (events: seq<Event>, message: Option<Message>)
      requires Valid() && Rate(engine, cfg.hop) && Delivered(r) && Acceptable(r)
      requires chunks == Chunks(cfg, r.shape[2]) && i < |chunks| == |Pcms(r)|
      modifies this`calls, dIn, dOut, hOut
      ensures var n := old(calls);
        && events == OrphanOf(api, n)
        && message == (if Ready(api, n) then Some(ChunkMessage(api, n, Pcms(r)[i], i, i + 1 == |chunks|)) else None)
        && calls == (if Ready(api, n) then SendCall(api, n) else BreakEnd(api, n))
    {
      events, message := [], None;
      PlannedChunk(engine, cfg, Latents(r), i);
      ghost var n := calls;
      var pcm := DecodeSpan(r, chunks[i]);
      if pcm.Some? {
        events, message := Respond(pcm.value, i, i + 1 == |chunks|, n);
      }
    }

    /** Decodes the span with up to `overlap` frames of context on each side.  The CUDA calls of one
        window count as one call that fails if any of them does. */
    method DecodeSpan(r: Request, s: Span) returns (pcm: Option<seq<int>>)
      requires Valid() && Rate(engine, cfg.hop) && Delivered(r) && Acceptable(r)
      requires 0 <= s.a < s.b <= r.shape[2] && s.b - s.a <= cfg.maxChunk
      modifies this`calls, dIn, dOut, hOut
      ensures pcm.Some? ==> pcm.value == ChunkPcm(engine, cfg, Latents(r), s)
      ensures calls == old(calls) + 1 && (pcm.Some? <==> api(old(calls)))
    {
      var lo, hi := Max(0, s.a - cfg.overlap), Min(r.shape[2], s.b + cfg.overlap);
      var cuda := Call();
      pcm := DecodeWindow(r.buffer, r.shape[2], lo, hi, s.a, s.b - s.a, cuda);
    }

    method PlanChunks(total: nat) returns (chunks: seq<Span>)
      requires Usable(cfg)
      ensures chunks == Chunks(cfg, total)
    {
      chunks := [];
      var a: nat, size: nat := 0, cfg.firstChunk;
      while a < total
        invariant size >= 1 && a <= total && |chunks| <= |Chunks(cfg, total)|
        invariant chunks == Chunks(cfg, total)[..|chunks|]
        invariant Chunks(cfg, total)[|chunks|..] == Plan(a, size, cfg.maxChunk, cfg.growth, total)
        decreases total - a
      {
        PlanStep(Chunks(cfg, total), |chunks|, a, size, cfg.maxChunk, cfg.growth, total);
        var b := Min(a + size, total);
        chunks := chunks + [Span(a, b)];
        a := b;
        size := NextSize(size, cfg.maxChunk, cfg.growth);
      }
    }

    /** The number of the call at which request `k` of a group starts. */
    ghost function StartOf(requests: seq<Request>, n: nat, k: nat): nat
      requires Usable(cfg) && k <= |requests|
    {
      if k == 0 then n else RunOf(requests[k - 1], StartOf(requests, n, k - 1)).next
    }

    /** The logs of the first `k` requests of a group. */
    ghost function LogsOf(requests: seq<Request>, n: nat, k: nat): (logs: seq<seq<Event>>)
      requires Usable(cfg) && k <= |requests|
      ensures |logs| == k
    {
      if k == 0 then [] else LogsOf(requests, n, k - 1) + [LogOf(requests[k - 1], StartOf(requests, n, k - 1))]
    }

    /** Serves a group of requests one after the other; each leaves a log of its own. */
    method ProcessRequests(requests: seq<Request>) returns (logs: seq<seq<Event>>)
      requires Valid() && Rate(engine, cfg.hop) && forall i :: 0 <= i < |requests| ==> Delivered(requests[i])
      modifies this`calls, dIn, dOut, hOut
      ensures logs == LogsOf(requests, old(calls), |requests|)
      ensures calls == StartOf(requests, old(calls), |requests|)
    {
      logs := [];
      ghost var start := calls;
      for i := 0 to |requests|
        invariant logs == LogsOf(requests, start, i)
        invariant calls == StartOf(requests, start, i)
      {
        var log := ProcessRequest(requests[i]);
        logs := logs + [log];
      }
    }
  }

  /** The shapes the engine takes, the first one being asked about by call `n`. */
  function Taken(api: Api, n: nat, shapes: seq<int>): seq<int> {
    if shapes == [] then []
    else
      var k := |shapes| - 1;
      Taken(api, n, shapes[..k]) + if api(n + k) then [shapes[k]] else []
  }

  lemma TakenSnoc(api: Api, n: nat, shapes: seq<int>, k: nat)
    requires k < |shapes|
    ensures Taken(api, n, shapes[..k + 1]) == Taken(api, n, shapes[..k]) + if api(n + k) then [shapes[k]] else []
  {
    assert shapes[..k + 1][..k] == shapes[..k];
  }

  /** Every shape the engine takes has been warmed. */
  lemma {:induction false} TakenIsWarmed(api: Api, n: nat, shapes: seq<int>, k: nat)
    requires k < |shapes| && api(n + k)
    ensures shapes[k] in Taken(api, n, shapes)
  {
    if k < |shapes| - 1 {
      TakenIsWarmed(api, n, shapes[..|shapes| - 1], k);
    }
  }

  // `shape` and `fp32` are the tensor's declared properties.
  datatype Request = Request(fp32: bool, shape: seq<int>, buffer: seq<real>)

  function PlannedPcms(D: Decoder, cfg: Config, z: Signal): seq<seq<int>>
    requires Usable(cfg)
  {
    var spans := Chunks(cfg, |z|);
    seq(|spans|, i requires 0 <= i < |spans| =>
      if 0 <= spans[i].a < spans[i].b <= |z| then ChunkPcm(D, cfg, z, spans[i]) else [])
  }

  lemma PlannedCount(D: Decoder, cfg: Config, z: Signal)
    requires Usable(cfg)
    ensures |PlannedPcms(D, cfg, z)| == |Chunks(cfg, |z|)|
  {
  }

  lemma PlannedChunk(D: Decoder, cfg: Config, z: Signal, i: nat)
    requires Usable(cfg) && i < |Chunks(cfg, |z|)|
    ensures var s := Chunks(cfg, |z|)[i];
      && 0 <= s.a < s.b <= |z| && s.b - s.a <= cfg.maxChunk
      && i < |PlannedPcms(D, cfg, z)| && PlannedPcms(D, cfg, z)[i] == ChunkPcm(D, cfg, z, s)
  {
    PlanSpan(cfg.firstChunk, cfg.maxChunk, cfg.growth, |z|, i);
  }
}
