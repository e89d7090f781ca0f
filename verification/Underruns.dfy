/** Underrun accounting on both sides of the socket, against a player that stalls. */
module Underruns {
  const SAMPLE_RATE := 16000

  /** A chunk that lands at `at` seconds with `samples` samples. */
  datatype Chunk = Chunk(at: real, samples: nat)

  function Seconds(samples: nat): real {
    samples as real / SAMPLE_RATE as real
  }

  function PlayedBefore(cs: seq<Chunk>, k: nat): real
    requires k <= |cs|
  {
    if k == 0 then 0.0 else PlayedBefore(cs, k - 1) + Seconds(cs[k - 1].samples)
  }

  /** When chunk `k` is due if playback started with the first chunk and never paused. */
  function Due(cs: seq<Chunk>, k: nat): real
    requires 0 < k <= |cs|
  {
    cs[0].at + PlayedBefore(cs, k)
  }

  predicate Flagged(cs: seq<Chunk>, k: nat)
    requires k < |cs|
  {
    k > 0 && cs[k].at > Due(cs, k)
  }

  function Flags(cs: seq<Chunk>, n: nat): nat
    requires n <= |cs|
  {
    if n == 0 then 0 else Flags(cs, n - 1) + if Flagged(cs, n - 1) then 1 else 0
  }

  // ---------------------------------------------------------------- the two counters

  /** The gateway: slack before each later chunk, negative slack is an underrun. */
  method GatewayUnderruns(cs: seq<Chunk>) returns (underruns: nat, chunks: nat, totalSamples: nat, playedSec: real)
    ensures underruns == Flags(cs, |cs|) && chunks == |cs|
    ensures playedSec == PlayedBefore(cs, |cs|) == Seconds(totalSamples)
  {
    var ttfa := 0.0;
    underruns, chunks, totalSamples, playedSec := 0, 0, 0, 0.0;
    for k := 0 to |cs|
      invariant chunks == k && playedSec == PlayedBefore(cs, k) && underruns == Flags(cs, k)
      invariant k > 0 ==> ttfa == cs[0].at
      invariant playedSec == Seconds(totalSamples)
    {
      var now := cs[k].at;
      if chunks == 0 {
        ttfa := now;
      } else {
        var slack := (ttfa + playedSec) - now;
        if slack < 0.0 {
          underruns := underruns + 1;
        }
      }
      chunks := chunks + 1;
      totalSamples := totalSamples + cs[k].samples;
      playedSec := playedSec + Seconds(cs[k].samples);
    }
  }

  /** The load generator: a message of `2 * samples` bytes that arrives after what was delivered
      has played is an underrun. */
  method LoadgenUnderruns(cs: seq<Chunk>) returns (underruns: nat)
    ensures underruns == Flags(cs, |cs|)
  {
    var firstAt, playedSec, gotFirst := 0.0, 0.0, false;
    underruns := 0;
    for k := 0 to |cs|
      invariant gotFirst <==> k > 0
      invariant playedSec == PlayedBefore(cs, k) && underruns == Flags(cs, k)
      invariant k > 0 ==> firstAt == cs[0].at
    {
      var now := cs[k].at;
      if !gotFirst {
        firstAt, gotFirst := now, true;
      } else if now > firstAt + playedSec {
        underruns := underruns + 1;
      }
      var bytes := 2 * cs[k].samples;
      playedSec := playedSec + (bytes / 2) as real / 16000.0;
    }
  }

  // ---------------------------------------------------------------- the player

  function MaxReal(a: real, b: real): real { if a < b then b else a }

  /** When the player has played out the first `k` chunks: it waits for a late chunk and goes on. */
  function Finish(cs: seq<Chunk>, k: nat): real
    requires 0 < k <= |cs|
  {
    if k == 1 then cs[0].at + Seconds(cs[0].samples)
    else MaxReal(Finish(cs, k - 1), cs[k - 1].at) + Seconds(cs[k - 1].samples)
  }

  predicate Stalls(cs: seq<Chunk>, k: nat)
    requires k < |cs|
  {
    k > 0 && cs[k].at > Finish(cs, k)
  }

  function StallCount(cs: seq<Chunk>, n: nat): nat
    requires n <= |cs|
  {
    if n == 0 then 0 else StallCount(cs, n - 1) + if Stalls(cs, n - 1) then 1 else 0
  }

  /** Seconds of silence the player has gone through before chunk `n`. */
  function Silence(cs: seq<Chunk>, n: nat): real
    requires n <= |cs|
  {
    if n == 0 then 0.0
    else Silence(cs, n - 1) + if Stalls(cs, n - 1) then cs[n - 1].at - Finish(cs, n - 1) else 0.0
  }

  function Lateness(cs: seq<Chunk>, k: nat): real
    requires 0 < k < |cs|
  {
    cs[k].at - Due(cs, k)
  }

  /** The worst lateness so far, at least zero. */
  function Worst(cs: seq<Chunk>, n: nat): real
    requires n <= |cs|
  {
    if n <= 1 then 0.0 else MaxReal(Worst(cs, n - 1), Lateness(cs, n - 1))
  }

  /** The player is behind the undisturbed schedule by the worst lateness so far, which is exactly
      the silence it has gone through. */
  lemma {:induction false} PlayerLagsByWorst(cs: seq<Chunk>, k: nat)
    requires 0 < k <= |cs|
    ensures Finish(cs, k) == Due(cs, k) + Worst(cs, k)
    ensures Silence(cs, k) == Worst(cs, k) >= 0.0
  {
    if k > 1 {
      PlayerLagsByWorst(cs, k - 1);
      var d := Seconds(cs[k - 1].samples);
      assert Due(cs, k) == Due(cs, k - 1) + d;
      assert Finish(cs, k) == MaxReal(Finish(cs, k - 1), cs[k - 1].at) + d;
    } else {
      assert PlayedBefore(cs, 1) == PlayedBefore(cs, 0) + Seconds(cs[0].samples);
    }
  }

  /** A real stall is exactly a flagged chunk that is later than every chunk before it. */
  lemma StallIsRecordLateness(cs: seq<Chunk>, k: nat)
    requires 0 < k < |cs|
    ensures Stalls(cs, k) <==> Flagged(cs, k) && forall j :: 0 < j < k ==> Lateness(cs, k) > Lateness(cs, j)
  {
    PlayerLagsByWorst(cs, k);
    WorstIs(cs, k);
  }

  lemma {:induction false} WorstIs(cs: seq<Chunk>, n: nat)
    requires n <= |cs|
    ensures Worst(cs, n) >= 0.0 && forall j :: 0 < j < n ==> Lateness(cs, j) <= Worst(cs, n)
    ensures Worst(cs, n) == 0.0 || exists j :: 0 < j < n && Lateness(cs, j) == Worst(cs, n)
  {
    if n > 1 {
      WorstIs(cs, n - 1);
    }
  }

  /** The count never misses a stall. */
  lemma {:induction false} NeverCountsFewer(cs: seq<Chunk>, n: nat)
    requires n <= |cs|
    ensures StallCount(cs, n) <= Flags(cs, n)
  {
    if n > 0 {
      NeverCountsFewer(cs, n - 1);
      if n > 1 { StallIsRecordLateness(cs, n - 1); }
    }
  }

  /** Up to the first stall the two agree chunk by chunk, so the first chunk flagged is the first
      chunk the player stalls on. */
  lemma {:induction false} SameUntilFirst(cs: seq<Chunk>, k: nat)
    requires k < |cs|
    requires forall j :: 0 <= j < k ==> !Flagged(cs, j) || !Stalls(cs, j)
    ensures Flagged(cs, k) <==> Stalls(cs, k)
    ensures forall j :: 0 <= j < k ==> !Flagged(cs, j) && !Stalls(cs, j)
  {
    if k > 0 {
      forall j | 0 <= j < k ensures !Flagged(cs, j) && !Stalls(cs, j) {
        SameUntilFirst(cs, j);
      }
      StallIsRecordLateness(cs, k);
      if Flagged(cs, k) {
        forall j | 0 < j < k ensures Lateness(cs, k) > Lateness(cs, j) {
          assert !Flagged(cs, j);
        }
      }
    }
  }

  /** Zero underruns are counted exactly when the player never stalls. */
  lemma {:induction false} ZeroIffNeverStalls(cs: seq<Chunk>, n: nat)
    requires n <= |cs|
    ensures Flags(cs, n) == 0 <==> forall k :: 0 <= k < n ==> !Stalls(cs, k)
    ensures Flags(cs, n) == 0 <==> forall k :: 0 <= k < n ==> !Flagged(cs, k)
  {
    if n > 0 {
      ZeroIffNeverStalls(cs, n - 1);
      if Flags(cs, n - 1) == 0 {
        SameUntilFirst(cs, n - 1);
      }
    }
  }

  /** Chunk `k` is later than every chunk before it. */
  ghost predicate LatestSoFar(cs: seq<Chunk>, k: nat)
    requires 0 < k < |cs|
  {
    forall j :: 0 < j < k ==> Lateness(cs, k) > Lateness(cs, j)
  }

  /** The count is the number of stalls if and only if every flagged chunk is later than all
      before it. */
  lemma {:induction false} CountIsStallsIff(cs: seq<Chunk>, n: nat)
    requires n <= |cs|
    ensures Flags(cs, n) == StallCount(cs, n) <==> forall k :: 0 < k < n && Flagged(cs, k) ==> LatestSoFar(cs, k)
  {
    if n > 0 {
      CountIsStallsIff(cs, n - 1);
      NeverCountsFewer(cs, n - 1);
      if n > 1 { StallIsRecordLateness(cs, n - 1); }
    }
  }

  /** The count can exceed the stalls: after one late chunk, chunks that keep the new pace go on
      being flagged although the player no longer stalls. */
  lemma OneStallManyFlags(late: real, n: nat)
    requires late > 0.0 && n >= 2
    ensures var cs := Steady(late, n);
      |cs| == n && Flags(cs, n) == n - 1 && StallCount(cs, n) == 1
  {
    var cs := Steady(late, n);
    SteadyCounts(late, n, n);
  }

  /** One second of audio a second, the first on time and all later ones late by the same amount. */
  function Steady(late: real, n: nat): (cs: seq<Chunk>)
    ensures |cs| == n
  {
    seq(n, k => Chunk(k as real + (if k == 0 then 0.0 else late), SAMPLE_RATE))
  }

  lemma {:induction false} SteadyCounts(late: real, n: nat, k: nat)
    requires late > 0.0 && k <= n
    ensures PlayedBefore(Steady(late, n), k) == k as real
    ensures k > 1 ==> Worst(Steady(late, n), k) == late
    ensures Flags(Steady(late, n), k) == (if k == 0 then 0 else k - 1)
    ensures StallCount(Steady(late, n), k) == (if k <= 1 then 0 else 1)
  {
    if k > 0 {
      SteadyCounts(late, n, k - 1);
      if k > 1 {
        PlayerLagsByWorst(Steady(late, n), k - 1);
      }
    }
  }
}
