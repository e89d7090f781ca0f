/** Token sequences on their way into a batch: bucketed by the client, padded by the server. */
module Tokens {
  import opened Arith

  const TOKEN_BUCKET := 16

  /** The least multiple of the bucket size that holds `n` tokens. */
  ghost predicate IsBucket(n: nat, padded: int) {
    padded % TOKEN_BUCKET == 0 && n <= padded < n + TOKEN_BUCKET
  }

  /** `vals` followed by zeros up to `n`; longer input is left as it is. */
  function ZeroPadded(vals: seq<int>, n: int): (padded: seq<int>)
    ensures IsPadded(vals, padded, n)
  {
    vals + seq(Max(0, n - |vals|), _ => 0)
  }

  /** The input at the front, the number 0 after it, `n` in all unless the input is longer. */
  ghost predicate IsPadded(vals: seq<int>, padded: seq<int>, n: int) {
    && |padded| == Max(n, |vals|) && padded[..|vals|] == vals
    && forall k :: |vals| <= k < |padded| ==> padded[k] == 0
  }

  method PadVals(vals: array<int>, n: nat) returns (out: array<int>)
    ensures out[..] == ZeroPadded(vals[..], n) && IsPadded(vals[..], out[..], n)
    ensures vals.Length >= n ==> out == vals
    ensures vals.Length < n ==> fresh(out)
  {
    if vals.Length >= n {
      return vals;
    }
    out := new int[n](_ => 0);
    for i := 0 to vals.Length
      invariant out[..i] == vals[..i] && forall k :: i <= k < n ==> out[k] == 0
    {
      out[i] := vals[i];
      assert out[..i + 1] == out[..i] + [vals[i]];
    }
    assert out[..] == out[..vals.Length] + out[vals.Length..];
  }

  /** The request for latents: ids and mask zero-padded to the bucket of the sequence length. */
  method BucketTokens(ids: array<int>, mask: array<int>, seqLen: nat)
      returns (padded: nat, outIds: array<int>, outMask: array<int>)
    ensures IsBucket(seqLen, padded) && padded % 16 == 0 && seqLen <= padded < seqLen + 16
    ensures outIds[..] == ZeroPadded(ids[..], padded) && outMask[..] == ZeroPadded(mask[..], padded)
    ensures IsPadded(ids[..], outIds[..], padded) && IsPadded(mask[..], outMask[..], padded)
  {
    padded := seqLen;
    var r := padded % TOKEN_BUCKET;
    if r != 0 {
      padded := padded + (TOKEN_BUCKET - r);
    }
    outIds := PadVals(ids, padded);
    outMask := PadVals(mask, padded);
  }

  /** Bucketing and then padding to a longer batch is padding once. */
  lemma PadTwice(vals: seq<int>, n: int, m: int)
    requires |vals| <= n <= m
    ensures ZeroPadded(ZeroPadded(vals, n), m) == ZeroPadded(vals, m)
  {
  }
}
