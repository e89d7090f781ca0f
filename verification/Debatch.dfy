/** `vits_frontend`: fusing grouped requests into one forward pass and taking it apart again. */
module Debatch {
  import opened Arith
  import opened Nets
  import opened Hygiene
  import opened Options
  import opened Tokens

  // One row of token ids and mask per batch element of the request.  An absent mask is ones.
  datatype Request = Request(ids: seq<seq<int>>, mask: Mask)
  datatype Mask = Absent | Present(rows: seq<seq<int>>)

  datatype Response = Response(latents: Signal, numFrames: int)

  /** Token ids and masks of the fused call, and the latents it returns unless it raises. */
  type Model = (seq<seq<int>>, seq<seq<int>>) -> Option<seq<Signal>>

  predicate Rectangular(rows: seq<seq<int>>) {
    |rows| >= 1 && forall k :: 0 <= k < |rows| ==> |rows[k]| == |rows[0]|
  }

  /** Two tensors; the mask can have a shape of its own. */
  predicate Loaded(r: Request) {
    Rectangular(r.ids) && (r.mask.Present? ==> Rectangular(r.mask.rows))
  }

  /** One row of mask for every row of ids. */
  predicate WellFormed(r: Request) {
    Loaded(r) && (r.mask.Present? ==> |r.mask.rows| == |r.ids|)
  }

  function RowWidth(rows: seq<seq<int>>): nat { if rows == [] then 0 else |rows[0]| }

  function Width(r: Request): nat { RowWidth(r.ids) }

  /** Without a mask every token counts. */
  predicate AllOnes(row: seq<int>, n: nat) {
    |row| == n && forall t :: 0 <= t < n ==> row[t] == 1
  }

  function Ones(n: nat): (row: seq<int>)
    ensures AllOnes(row, n)
  {
    seq(n, _ => 1)
  }

  function OnesLike(rows: seq<seq<int>>): (ones: seq<seq<int>>)
    ensures |ones| == |rows| && forall k :: 0 <= k < |rows| ==> AllOnes(ones[k], |rows[k]|)
  {
    seq(|rows|, k requires 0 <= k < |rows| => Ones(|rows[k]|))
  }

  function MaskRows(r: Request): (rows: seq<seq<int>>)
    ensures WellFormed(r) ==> |rows| == |r.ids|
  {
    if r.mask.Present? then r.mask.rows else OnesLike(r.ids)
  }

  lemma MaskRowsAre(r: Request)
    requires Loaded(r)
    ensures Rectangular(MaskRows(r))
  {
    if r.mask.Absent? {
      var rows := OnesLike(r.ids);
      assert AllOnes(rows[0], |r.ids[0]|);
      forall k | 0 <= k < |rows| ensures |rows[k]| == |rows[0]| {
        assert AllOnes(rows[k], |r.ids[k]|);
      }
    }
  }

  /** A request without a mask counts every one of its tokens. */
  lemma AbsentMaskCountsAll(r: Request, k: nat, t: nat)
    requires r.mask.Absent? && k < |r.ids| && t < |r.ids[k]|
    ensures |MaskRows(r)| == |r.ids| && |MaskRows(r)[k]| == |r.ids[k]| && MaskRows(r)[k][t] == 1
  {
    assert AllOnes(MaskRows(r)[k], |r.ids[k]|);
  }

  function Longest(requests: seq<Request>): nat {
    if requests == [] then 0
    else Max(Longest(requests[..|requests| - 1]), Width(requests[|requests| - 1]))
  }

  /** Some request is that wide. */
  lemma {:induction false} LongestIsReached(requests: seq<Request>) returns (i: nat)
    requires requests != []
    ensures i < |requests| && Width(requests[i]) == Longest(requests)
  {
    var front := requests[..|requests| - 1];
    i := |requests| - 1;
    if front != [] && Longest(front) > Width(requests[i]) {
      i := LongestIsReached(front);
    }
  }

  lemma {:induction false} LongestCovers(requests: seq<Request>, i: nat)
    requires i < |requests|
    ensures Width(requests[i]) <= Longest(requests)
  {
    if i < |requests| - 1 {
      LongestCovers(requests[..|requests| - 1], i);
    }
  }

  function PadRows(rows: seq<seq<int>>, n: int): (padded: seq<seq<int>>)
    ensures |padded| == |rows|
  {
    seq(|rows|, k requires 0 <= k < |rows| => ZeroPadded(rows[k], n))
  }

  function FusedIds(requests: seq<Request>, n: int): seq<seq<int>> {
    if requests == [] then []
    else FusedIds(requests[..|requests| - 1], n) + PadRows(requests[|requests| - 1].ids, n)
  }

  function FusedMask(requests: seq<Request>, n: int): seq<seq<int>> {
    if requests == [] then []
    else FusedMask(requests[..|requests| - 1], n) + PadRows(MaskRows(requests[|requests| - 1]), n)
  }

  // ---------------------------------------------------------------- the true length of a row

  function Abs(v: real): real { if v < 0.0 then -v else v }

  function Loudness(x: Frame): (v: real)
    ensures v >= 0.0
  {
    if x == [] then 0.0 else Loudness(x[..|x| - 1]) + Abs(x[|x| - 1])
  }

  lemma {:induction false} LoudIsNotSilent(x: Frame)
    ensures Loudness(x) > 0.0 <==> !Silent(x)
  {
    if x != [] {
      LoudIsNotSilent(x[..|x| - 1]);
      assert Silent(x) <==> Silent(x[..|x| - 1]) && x[|x| - 1] == 0.0;
    }
  }

  /** One past the last frame that is not silent; the whole row when there is none. */
  function TrueFrames(z: Signal): (n: nat)
    ensures n <= |z| && (|z| > 0 ==> n > 0)
  {
    if LastLoud(z) == 0 then |z| else LastLoud(z)
  }

  function LastLoud(z: Signal): (n: nat)
    ensures n <= |z|
  {
    if z == [] then 0
    else if Loudness(z[|z| - 1]) > 0.0 then |z|
    else LastLoud(z[..|z| - 1])
  }

  lemma {:induction false} LastLoudIs(z: Signal)
    ensures SilentFrom(z, LastLoud(z))
    ensures LastLoud(z) > 0 ==> !Silent(z[LastLoud(z) - 1])
    ensures LastLoud(z) == 0 <==> SilentFrom(z, 0)
  {
    if z != [] {
      LoudIsNotSilent(z[|z| - 1]);
      if Loudness(z[|z| - 1]) <= 0.0 {
        LastLoudIs(z[..|z| - 1]);
        assert forall t :: 0 <= t < |z| - 1 ==> z[..|z| - 1][t] == z[t];
      }
    }
  }

  /** At least one frame is announced, even for a row without any. */
  function ResponseOf(z: Signal): Response {
    var n := Max(1, TrueFrames(z));
    Response(z[..Min(n, |z|)], n)
  }

  /** What was trimmed off a row is silence: the response followed by silent frames is the row. */
  lemma TrimIsLossless(z: Signal)
    requires |z| > 0
    ensures Extends(ResponseOf(z).latents, z) && SilentFrom(z, ResponseOf(z).numFrames)
    ensures |ResponseOf(z).latents| == ResponseOf(z).numFrames >= 1
  {
    LastLoudIs(z);
  }

  /** A row that is the item's own latents followed by silence yields the response the item would
      get alone if and only if the item has a frame that is not silent or fills the row. */
  lemma TrimRecoversItem(x: Signal, z: Signal)
    requires |x| > 0 && Extends(x, z) && SilentFrom(z, |x|)
    ensures ResponseOf(z) == ResponseOf(x) <==> !SilentFrom(x, 0) || |x| == |z|
  {
    LastLoudIs(x);
    LastLoudIs(z);
    if !SilentFrom(x, 0) {
      var t :| 0 <= t < |x| && !Silent(x[t]);
      assert z[t] == x[t];
      var n := LastLoud(x);
      assert z[n - 1] == x[n - 1] && !Silent(z[n - 1]);
      LastLoudFrom(x, z, n);
      assert z[..n] == x[..n];
    } else {
      assert SilentFrom(z, 0) by {
        forall t | 0 <= t < |z| ensures Silent(z[t]) {
          if t < |x| { assert z[t] == x[t]; }
        }
      }
      if |x| == |z| { assert x == z; }
    }
  }

  lemma LastLoudFrom(x: Signal, z: Signal, n: nat)
    requires 0 < n <= |x| && Extends(x, z) && SilentFrom(z, |x|) && SilentFrom(x, n) && !Silent(z[n - 1])
    ensures LastLoud(z) == n
  {
    LastLoudIs(z);
    assert SilentFrom(z, n) by {
      forall t | n <= t < |z| ensures Silent(z[t]) {
        if t < |x| { assert z[t] == x[t]; }
      }
    }
  }

  // ---------------------------------------------------------------- the batched call

  /** The response to request `i` comes from row `i` of the fused call. */
  ghost predicate Answers(out: seq<Signal>, i: nat, r: Response) {
    i < |out| && r == ResponseOf(out[i])
  }

  /** What the model returns for all rows of all requests, fused at the widest. */
  function FusedCall(requests: seq<Request>, model: Model): Option<seq<Signal>> {
    model(FusedIds(requests, Longest(requests)), FusedMask(requests, Longest(requests)))
  }

  /** No mask is wider than the widest ids; narrower ones are padded like them. */
  predicate MasksFit(requests: seq<Request>) {
    forall i :: 0 <= i < |requests| ==> RowWidth(MaskRows(requests[i])) <= Longest(requests)
  }

  /** Nothing comes back when a mask is wider than the batch, when the model raises, or when it
      returns fewer rows than there are requests; otherwise each request gets its row, trimmed. */
  method Batched(requests: seq<Request>, model: Model) returns (reply: Option<seq<Response>>)
    requires Longest(requests) >= 1 && forall i :: 0 <= i < |requests| ==> Loaded(requests[i])
    ensures reply.Some?
      <==> MasksFit(requests) && FusedCall(requests, model).Some? && |FusedCall(requests, model).value| >= |requests|
    ensures reply.Some? ==> |reply.value| == |requests|
    ensures reply.Some? ==> forall i :: 0 <= i < |requests| ==>
      Answers(FusedCall(requests, model).value, i, reply.value[i])
  {
    var smax := Measure(requests);
    var fits, ids, mask := Fuse(requests, smax);
    if !fits {
      return None;
    }
    var out := model(ids, mask);
    if out.None? || |out.value| < |requests| {
      return None;
    }
    var responses := Respond(|requests|, out.value);
    return Some(responses);
  }

  /** The width of the widest request. */
  method Measure(requests: seq<Request>) returns (smax: nat)
    ensures smax == Longest(requests)
  {
    smax := 0;
    for i := 0 to |requests|
      invariant smax == Longest(requests[..i])
    {
      assert requests[..i + 1][..i] == requests[..i];
      smax := Max(smax, Width(requests[i]));
    }
    assert requests[..|requests|] == requests;
  }

  /** All rows of all requests, zero-padded to one width, unless a mask is too wide for it. */
  method Fuse(requests: seq<Request>, smax: nat) returns (fits: bool, ids: seq<seq<int>>, mask: seq<seq<int>>)
    requires (forall i :: 0 <= i < |requests| ==> Loaded(requests[i])) && smax == Longest(requests)
    ensures fits <==> MasksFit(requests)
    ensures fits ==> ids == FusedIds(requests, smax) && mask == FusedMask(requests, smax)
  {
    fits, ids, mask := true, [], [];
    for i := 0 to |requests|
      invariant ids == FusedIds(requests[..i], smax) && mask == FusedMask(requests[..i], smax)
      invariant fits && forall j :: 0 <= j < i ==> RowWidth(MaskRows(requests[j])) <= smax
    {
      LongestCovers(requests, i);
      FusedSnoc(requests, smax, i);
      if RowWidth(MaskRows(requests[i])) > smax {
        return false, [], [];
      }
      var paddedIds, paddedMask := PadRequest(requests[i], smax);
      ids := ids + paddedIds;
      mask := mask + paddedMask;
    }
    assert requests[..|requests|] == requests;
  }

  method PadRequest(r: Request, smax: nat) returns (ids: seq<seq<int>>, mask: seq<seq<int>>)
    requires Loaded(r) && Width(r) <= smax && RowWidth(MaskRows(r)) <= smax
    ensures ids == PadRows(r.ids, smax) && mask == PadRows(MaskRows(r), smax)
  {
    MaskRowsAre(r);
    ids := Pad(r.ids, smax);
    mask := Pad(MaskRows(r), smax);
  }

  lemma FusedSnoc(requests: seq<Request>, n: int, i: nat)
    requires i < |requests|
    ensures FusedIds(requests[..i + 1], n) == FusedIds(requests[..i], n) + PadRows(requests[i].ids, n)
    ensures FusedMask(requests[..i + 1], n) == FusedMask(requests[..i], n) + PadRows(MaskRows(requests[i]), n)
  {
    assert requests[..i + 1][..i] == requests[..i] && requests[..i + 1][i] == requests[i];
  }

  /** Cuts the first `n` rows of the output apart again. */
  method Respond(n: nat, out: seq<Signal>) returns (responses: seq<Response>)
    requires n <= |out|
    ensures |responses| == n && forall i :: 0 <= i < n ==> Answers(out, i, responses[i])
  {
    var frames := DetectFrames(out);
    responses := [];
    for i := 0 to n
      invariant |responses| == i
      invariant forall j :: 0 <= j < i ==> Answers(out, j, responses[j])
    {
      var kept := Max(1, frames[i]);
      responses := responses + [Response(out[i][..Min(kept, |out[i]|)], kept)];
    }
  }

  /** Zero-fills a fresh array per row and copies the row to its front. */
  method Pad(rows: seq<seq<int>>, n: nat) returns (padded: seq<seq<int>>)
    requires forall k :: 0 <= k < |rows| ==> |rows[k]| <= n
    ensures padded == PadRows(rows, n)
    ensures forall k :: 0 <= k < |rows| ==> IsPadded(rows[k], padded[k], n)
  {
    padded := [];
    for k := 0 to |rows|
      invariant |padded| == k && forall j :: 0 <= j < k ==> padded[j] == ZeroPadded(rows[j], n)
    {
      var row := new int[n](_ => 0);
      for c := 0 to |rows[k]|
        invariant row[..c] == rows[k][..c] && forall t :: c <= t < n ==> row[t] == 0
      {
        row[c] := rows[k][c];
        assert row[..c + 1] == row[..c] + [rows[k][c]];
      }
      assert row[..] == row[..|rows[k]|] + row[|rows[k]|..];
      padded := padded + [row[..]];
    }
  }

  method DetectFrames(out: seq<Signal>) returns (frames: seq<nat>)
    ensures |frames| == |out| && forall i :: 0 <= i < |out| ==> frames[i] == TrueFrames(out[i])
  {
    frames := seq(|out|, _ => 0);
    for i := 0 to |out|
      invariant |frames| == |out| && forall j :: 0 <= j < i ==> frames[j] == TrueFrames(out[j])
    {
      var last := ScanLoud(out[i]);
      frames := frames[i := if last > 0 then last else |out[i]|];
    }
  }

  method ScanLoud(z: Signal) returns (last: nat)
    ensures last == LastLoud(z)
  {
    last := |z|;
    assert z[..last] == z;
    while last > 0 && Loudness(z[last - 1]) <= 0.0
      invariant last <= |z| && LastLoud(z) == LastLoud(z[..last])
    {
      assert z[..last][..last - 1] == z[..last - 1];
      last := last - 1;
    }
    assert last > 0 ==> z[..last][|z[..last]| - 1] == z[last - 1];
    assert last == 0 ==> z[..last] == [];
  }

  // ---------------------------------------------------------------- whose row is it?

  function RowsBefore(requests: seq<Request>, i: nat): nat
    requires i <= |requests|
  {
    if i == 0 then 0 else RowsBefore(requests, i - 1) + |requests[i - 1].ids|
  }

  /** Request `i` owns the rows from `RowsBefore(i)` on: row `i`, which answers it, is its own
      first row if and only if every request before it has a single row. */
  lemma {:induction false} OwnRowIffSingleRows(requests: seq<Request>, i: nat)
    requires (forall j :: 0 <= j < |requests| ==> WellFormed(requests[j])) && i <= |requests|
    ensures RowsBefore(requests, i) >= i
    ensures RowsBefore(requests, i) == i <==> forall j :: 0 <= j < i ==> |requests[j].ids| == 1
  {
    if i > 0 {
      OwnRowIffSingleRows(requests, i - 1);
    }
  }

  lemma {:induction false} FusedLength(requests: seq<Request>, n: int)
    requires forall j :: 0 <= j < |requests| ==> WellFormed(requests[j])
    ensures |FusedIds(requests, n)| == |FusedMask(requests, n)| == RowsBefore(requests, |requests|)
  {
    if requests != [] {
      var front := requests[..|requests| - 1];
      FusedLength(front, n);
      RowsBeforePrefix(requests, front, |front|);
    }
  }

  /** Row `k` of request `i` in the fused call. */
  lemma {:induction false} FusedRowIs(requests: seq<Request>, n: int, i: nat, k: nat)
    requires (forall j :: 0 <= j < |requests| ==> WellFormed(requests[j])) && i < |requests| && k < |requests[i].ids|
    ensures RowsBefore(requests, i) + k < |FusedIds(requests, n)|
      && RowsBefore(requests, i) + k < |FusedMask(requests, n)|
    ensures FusedIds(requests, n)[RowsBefore(requests, i) + k] == ZeroPadded(requests[i].ids[k], n)
    ensures FusedMask(requests, n)[RowsBefore(requests, i) + k] == ZeroPadded(MaskRows(requests[i])[k], n)
  {
    var front := requests[..|requests| - 1];
    var p := RowsBefore(requests, i) + k;
    FusedLength(front, n);
    RowsBeforePrefix(requests, front, i);
    if i < |front| {
      FusedRowIs(front, n, i, k);
      FusedFront(requests, front, n, p);
    } else {
      FusedBack(requests, front, n, p, k);
    }
  }

  /** The fused call starts with the rows of the earlier requests. */
  lemma FusedFront(requests: seq<Request>, front: seq<Request>, n: int, p: nat)
    requires requests != [] && front == requests[..|requests| - 1]
    requires p < |FusedIds(front, n)| && p < |FusedMask(front, n)|
    ensures p < |FusedIds(requests, n)| && FusedIds(requests, n)[p] == FusedIds(front, n)[p]
    ensures p < |FusedMask(requests, n)| && FusedMask(requests, n)[p] == FusedMask(front, n)[p]
  {
  }

  /** It ends with the padded rows of the last one. */
  lemma FusedBack(requests: seq<Request>, front: seq<Request>, n: int, p: nat, k: nat)
    requires requests != [] && front == requests[..|requests| - 1] && WellFormed(requests[|requests| - 1])
    requires |FusedIds(front, n)| == |FusedMask(front, n)| == p - k && k < |requests[|requests| - 1].ids|
    ensures p < |FusedIds(requests, n)| && FusedIds(requests, n)[p] == ZeroPadded(requests[|requests| - 1].ids[k], n)
    ensures p < |FusedMask(requests, n)|
      && FusedMask(requests, n)[p] == ZeroPadded(MaskRows(requests[|requests| - 1])[k], n)
  {
    var last := requests[|requests| - 1];
    PaddedAt(FusedIds(front, n), last.ids, n, k);
    PaddedAt(FusedMask(front, n), MaskRows(last), n, k);
  }

  lemma PaddedAt(before: seq<seq<int>>, rows: seq<seq<int>>, n: int, k: nat)
    requires k < |rows|
    ensures (before + PadRows(rows, n))[|before| + k] == ZeroPadded(rows[k], n)
  {
  }

  lemma {:induction false} RowsBeforePrefix(requests: seq<Request>, front: seq<Request>, i: nat)
    requires i <= |front| <= |requests| && front == requests[..|front|]
    ensures RowsBefore(requests, i) == RowsBefore(front, i)
  {
    if i > 0 {
      RowsBeforePrefix(requests, front, i - 1);
    }
  }
}
