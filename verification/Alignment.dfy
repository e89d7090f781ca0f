/** The tensor form of alignment expansion against run-length expansion of token durations. */
module Alignment {
  import opened Nets

  // ---------------------------------------------------------------- run-length expansion

  function Sum(dur: seq<nat>): nat {
    if dur == [] then 0 else Sum(dur[..|dur| - 1]) + dur[|dur| - 1]
  }

  /** Token `s` repeated `dur[s]` times, for each token in turn. */
  function Expand(dur: seq<nat>): (tokens: seq<nat>)
    ensures |tokens| == Sum(dur)
  {
    if dur == [] then []
    else
      var last := |dur| - 1;
      Expand(dur[..last]) + seq(dur[last], _ => last)
  }

  /** Token `s` owns exactly the frames between the running totals before and after it. */
  lemma {:induction false} ExpandAt(dur: seq<nat>, t: nat)
    requires t < Sum(dur)
    ensures var s := Expand(dur)[t]; s < |dur| && Sum(dur[..s]) <= t < Sum(dur[..s + 1])
  {
    var last := |dur| - 1;
    assert dur[..|dur|] == dur;
    if t < Sum(dur[..last]) {
      ExpandAt(dur[..last], t);
      var s := Expand(dur[..last])[t];
      assert dur[..last][..s] == dur[..s] && dur[..last][..s + 1] == dur[..s + 1];
    }
  }

  /** Selection never moves back in time. */
  lemma {:induction false} ExpandMonotone(dur: seq<nat>, t: nat, u: nat)
    requires t <= u < Sum(dur)
    ensures Expand(dur)[t] <= Expand(dur)[u]
  {
    ExpandAt(dur, t);
    ExpandAt(dur, u);
    if Expand(dur)[u] + 1 <= Expand(dur)[t] {
      SumMonotone(dur, Expand(dur)[u] + 1, Expand(dur)[t]);
      assert false;
    }
  }

  lemma {:induction false} SumMonotone(dur: seq<nat>, m: nat, n: nat)
    requires m <= n <= |dur|
    ensures Sum(dur[..m]) <= Sum(dur[..n])
  {
    if m < n {
      SumMonotone(dur, m, n - 1);
      assert dur[..n][..n - 1] == dur[..n - 1];
    }
  }

  lemma {:induction false} ExpandBelow(dur: seq<nat>)
    ensures forall s :: s in Expand(dur) ==> s < |dur|
  {
    if dur != [] {
      ExpandBelow(dur[..|dur| - 1]);
    }
  }

  /** Every token gets exactly its duration in frames. */
  lemma {:induction false} ExpandCount(dur: seq<nat>, s: nat)
    requires s < |dur|
    ensures multiset(Expand(dur))[s] == dur[s]
  {
    var last := |dur| - 1;
    RepeatCount(dur[last], last, s);
    if s < last {
      ExpandCount(dur[..last], s);
    } else {
      ExpandBelow(dur[..last]);
      assert last !in Expand(dur[..last]);
    }
  }

  lemma {:induction false} RepeatCount(n: nat, v: nat, s: nat)
    ensures multiset(seq(n, _ => v))[s] == if s == v then n else 0
  {
    if n > 0 {
      RepeatCount(n - 1, v, s);
      assert seq(n, _ => v) == seq(n - 1, _ => v) + [v];
    }
  }

  lemma {:induction false} ExpandSilentTokens(dur: seq<nat>, n: nat)
    ensures Sum(dur + seq(n, _ => 0)) == Sum(dur)
    ensures Expand(dur + seq(n, _ => 0)) == Expand(dur)
  {
    if n == 0 {
      assert dur + seq(n, _ => 0) == dur;
    } else {
      ExpandSilentTokens(dur, n - 1);
      var d := dur + seq(n, _ => 0);
      assert d[..|d| - 1] == dur + seq(n - 1, _ => 0);
    }
  }

  // ---------------------------------------------------------------- the tensors

  function CumSum(dur: seq<nat>): (cum: seq<nat>)
    ensures |cum| == |dur|
  {
    seq(|dur|, s requires 0 <= s < |dur| => Sum(dur[..s + 1]))
  }

  /** `valid[s][t]` is one where frame `t` comes before token `s` ends. */
  function Before(cum: seq<nat>, s: int, t: int): real
    requires s < |cum|
  {
    if 0 <= s && t < cum[s] then 1.0 else 0.0
  }

  /** The difference with the row above, the first row being compared with zeros. */
  function Shifted(cum: seq<nat>, s: nat, t: int): real
    requires s < |cum|
  {
    Before(cum, s, t) - Before(cum, s - 1, t)
  }

  /** Row `t` of the attention: which tokens frame `t` is made of. */
  function AttentionRow(dur: seq<nat>, tokenMask: seq<real>, frameMask: real, t: nat): (row: seq<real>)
    ensures |row| == |dur|
  {
    seq(|dur|, s requires 0 <= s < |dur| => Shifted(CumSum(dur), s, t) * (Get(tokenMask, s) * frameMask))
  }

  function WeightedSum(row: seq<real>, vectors: seq<Frame>, c: int): real {
    if row == [] then 0.0
    else WeightedSum(row[..|row| - 1], vectors, c) + row[|row| - 1] * Get(At(vectors, |row| - 1), c)
  }

  /** One output frame of the product of the attention with per-token vectors. */
  function MatMulRow(row: seq<real>, vectors: seq<Frame>, channels: nat): (frame: Frame)
    ensures |frame| == channels
  {
    seq(channels, c => WeightedSum(row, vectors, c))
  }

  // ---------------------------------------------------------------- equivalence

  ghost predicate OneHot(row: seq<real>, k: int) {
    forall s :: 0 <= s < |row| ==> row[s] == if s == k then 1.0 else 0.0
  }

  /** A masked token has no duration. */
  ghost predicate MaskedTokensAreSilent(dur: seq<nat>, tokenMask: seq<real>) {
    |tokenMask| == |dur| && forall s :: 0 <= s < |dur| ==> tokenMask[s] == 1.0 || (tokenMask[s] == 0.0 && dur[s] == 0)
  }

  /** A real frame selects exactly one token, the one run-length expansion puts there, with weight
      one; a frame past the durations or masked out selects none. */
  lemma AttentionIsExpansion(dur: seq<nat>, tokenMask: seq<real>, frameMask: real, t: nat)
    requires MaskedTokensAreSilent(dur, tokenMask) && (frameMask == 1.0 || frameMask == 0.0)
    ensures OneHot(AttentionRow(dur, tokenMask, frameMask, t),
                   if frameMask == 1.0 && t < Sum(dur) then Expand(dur)[t] else -1)
  {
    var row := AttentionRow(dur, tokenMask, frameMask, t);
    var k := if frameMask == 1.0 && t < Sum(dur) then Expand(dur)[t] else -1;
    forall s | 0 <= s < |dur| ensures row[s] == if s == k then 1.0 else 0.0 {
      ShiftedIs(dur, s, t);
      if t < Sum(dur) {
        ExpandAt(dur, t);
        OwnerIsUnique(dur, s, Expand(dur)[t], t);
      } else {
        SumMonotone(dur, s + 1, |dur|);
        assert dur[..|dur|] == dur;
      }
    }
  }

  lemma ShiftedIs(dur: seq<nat>, s: nat, t: nat)
    requires s < |dur|
    ensures Shifted(CumSum(dur), s, t) == if Sum(dur[..s]) <= t < Sum(dur[..s + 1]) then 1.0 else 0.0
    ensures Sum(dur[..s + 1]) == Sum(dur[..s]) + dur[s]
  {
    assert dur[..s + 1][..s] == dur[..s];
    assert s == 0 ==> dur[..s] == [];
  }

  lemma OwnerIsUnique(dur: seq<nat>, s: nat, k: nat, t: nat)
    requires s < |dur| && k < |dur| && Sum(dur[..k]) <= t < Sum(dur[..k + 1])
    ensures Sum(dur[..s]) <= t < Sum(dur[..s + 1]) <==> s == k
  {
    if s < k { SumMonotone(dur, s + 1, k); }
    if k < s { SumMonotone(dur, k + 1, s); }
  }

  lemma {:induction false} OneHotSum(row: seq<real>, vectors: seq<Frame>, k: int, c: int)
    requires OneHot(row, k)
    ensures WeightedSum(row, vectors, c) == if 0 <= k < |row| then Get(At(vectors, k), c) else 0.0
  {
    if row != [] {
      OneHotSum(row[..|row| - 1], vectors, k, c);
    }
  }

  /** The vector of token `k`, or silence. */
  function Selected(vectors: seq<Frame>, k: int, channels: nat): Frame {
    if 0 <= k < |vectors| then vectors[k] else seq(channels, _ => 0.0)
  }

  lemma MatMulSelects(row: seq<real>, vectors: seq<Frame>, k: int, channels: nat)
    requires OneHot(row, k) && |row| == |vectors| && forall s :: 0 <= s < |vectors| ==> |vectors[s]| == channels
    ensures MatMulRow(row, vectors, channels) == Selected(vectors, k, channels)
  {
    forall c | 0 <= c < channels ensures MatMulRow(row, vectors, channels)[c] == Selected(vectors, k, channels)[c] {
      OneHotSum(row, vectors, k, c);
    }
  }
}
