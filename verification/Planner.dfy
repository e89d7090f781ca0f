/** Progressive chunk planning: the spans an utterance of `total` frames is cut into. */
module Planner {
  import opened Arith

  /** Frames `[a, b)`. */
  datatype Span = Span(a: int, b: int)

  /** Consecutive nonempty spans that cover `[from, total)`. */
  ghost predicate Partition(spans: seq<Span>, from: int, total: int) {
    && (spans == [] ==> from == total)
    && (spans != [] ==> spans[0].a == from && spans[|spans| - 1].b == total)
    && (forall i :: 0 <= i < |spans| ==> spans[i].a < spans[i].b)
    && (forall i :: 0 < i < |spans| ==> spans[i - 1].b == spans[i].a)
  }

  /** Conversion of a product to an integer drops the fraction. */
  function Trunc(x: real): int {
    if x >= 0.0 then x.Floor else -((-x).Floor)
  }

  /** Only the fraction is dropped, towards zero. */
  lemma TruncDropsFraction(x: real)
    ensures x >= 0.0 ==> 0.0 <= x - Trunc(x) as real < 1.0 && Trunc(x) >= 0
    ensures x <= 0.0 ==> -1.0 < x - Trunc(x) as real <= 0.0 && Trunc(x) <= 0
  {
  }

  function NextSize(size: nat, max: nat, growth: real): (next: nat)
    ensures next <= max && (next <= size ==> next == max)
  {
    Min(max, Max(size + 1, Trunc(size as real * growth)))
  }

  /** The size the planner has reached after `i` chunks. */
  function SizeAt(first: nat, max: nat, growth: real, i: nat): nat {
    if i == 0 then first else NextSize(SizeAt(first, max, growth, i - 1), max, growth)
  }

  /** The spans cut from frame `a` on, when the next chunk has `size` frames. */
  function Plan(a: nat, size: nat, max: nat, growth: real, total: nat): (spans: seq<Span>)
    requires size >= 1 && max >= 1
    decreases total - a
  {
    if a >= total then []
    else
      var b := Min(a + size, total);
      [Span(a, b)] + Plan(b, NextSize(size, max, growth), max, growth, total)
  }

  /** One turn of the planning loop, `n` spans into the plan. */
  lemma PlanStep(spans: seq<Span>, n: nat, a: nat, size: nat, max: nat, growth: real, total: nat)
    requires size >= 1 && max >= 1 && a < total && n <= |spans|
    requires spans[n..] == Plan(a, size, max, growth, total)
    ensures n < |spans| && spans[n] == Span(a, Min(a + size, total))
    ensures spans[n + 1..] == Plan(Min(a + size, total), NextSize(size, max, growth), max, growth, total)
  {
    assert spans[n..][1..] == spans[n + 1..];
  }

  lemma {:induction false} PlanIsPartition(a: nat, size: nat, max: nat, growth: real, total: nat)
    requires size >= 1 && max >= 1 && a <= total
    ensures Partition(Plan(a, size, max, growth, total), a, total)
    decreases total - a
  {
    if a < total {
      PlanIsPartition(Min(a + size, total), NextSize(size, max, growth), max, growth, total);
    }
  }

  lemma PlanStarts(first: nat, max: nat, growth: real, total: nat)
    requires 1 <= first <= max && first <= total
    ensures Plan(0, first, max, growth, total) != [] && Plan(0, first, max, growth, total)[0] == Span(0, first)
  {
  }

  /** Every chunk but the last has exactly the size the schedule has reached. */
  lemma {:induction false} PlanSizes(a: nat, size: nat, max: nat, growth: real, total: nat, first: nat, n: nat, i: nat)
    requires size >= 1 && max >= 1 && a <= total
    requires size == SizeAt(first, max, growth, n)
    requires i < |Plan(a, size, max, growth, total)|
    ensures var s := Plan(a, size, max, growth, total)[i];
      s.b == Min(s.a + SizeAt(first, max, growth, n + i), total)
    decreases i
  {
    if i > 0 {
      PlanSizes(Min(a + size, total), NextSize(size, max, growth), max, growth, total, first, n + 1, i - 1);
    }
  }

  /** Sizes rise strictly until they reach the maximum and stay there. */
  lemma {:induction false} SizesRise(first: nat, max: nat, growth: real, i: nat, j: nat)
    requires 1 <= first <= max && i < j
    ensures 1 <= SizeAt(first, max, growth, i) <= SizeAt(first, max, growth, j) <= max
    ensures SizeAt(first, max, growth, i) < max ==> SizeAt(first, max, growth, i) < SizeAt(first, max, growth, j)
    ensures SizeAt(first, max, growth, i) == max ==> SizeAt(first, max, growth, j) == max
    decreases j
  {
    if i + 1 < j {
      SizesRise(first, max, growth, i, j - 1);
    } else if i > 0 {
      SizesRise(first, max, growth, i - 1, i);
    }
  }

  /** The growth rule in plain arithmetic: after a size of `m` comes the maximum once `m + 1` or the
      whole part of `m * growth` reaches it, and before that the larger of the two. */
  ghost predicate GrowsTo(m: int, next: int, max: nat, growth: real) {
    var whole := (m as real * growth).Floor;
    && (m + 1 >= max || whole >= max ==> next == max)
    && (m + 1 < max && whole < max && whole > m + 1 ==> next == whole)
    && (m + 1 < max && whole <= m + 1 ==> next == m + 1)
  }

  /** The rule leaves no choice, and the planner follows it. */
  lemma SizeGrows(size: nat, max: nat, growth: real)
    ensures forall next :: GrowsTo(size, next, max, growth) <==> next == NextSize(size, max, growth)
  {
    var product := size as real * growth;
    if product < 0.0 {
      assert product.Floor < 0 && Trunc(product) <= 0;
    }
  }

  /** Span `s` has `size` frames, unless the utterance ends first. */
  predicate Takes(s: Span, size: int, total: nat) {
    s.b == Min(s.a + size, total)
  }

  /** On the spans themselves: the first takes the first size, and each later one what growth makes
      of the length before it. */
  lemma {:induction false} PlanGrows(a: nat, size: nat, max: nat, growth: real, total: nat, i: nat)
    requires size >= 1 && max >= 1 && a < total && i < |Plan(a, size, max, growth, total)|
    ensures Takes(Plan(a, size, max, growth, total)[0], size, total)
    ensures var spans := Plan(a, size, max, growth, total);
      i > 0 ==> forall next :: GrowsTo(spans[i - 1].b - spans[i - 1].a, next, max, growth) ==>
        Takes(spans[i], next, total)
    decreases i
  {
    if i > 0 {
      var b := Min(a + size, total);
      SizeGrows(size, max, growth);
      PlanGrows(b, NextSize(size, max, growth), max, growth, total, i - 1);
      assert Plan(a, size, max, growth, total)[0] == Span(a, b);
    }
  }

  /** The warm-up schedule starts at the first size, grows by the same rule and stops at the
      maximum. */
  lemma {:induction false} WarmSizesGrow(size: nat, max: nat, growth: real, i: nat)
    requires 1 <= size <= max && i < |WarmSizes(size, max, growth)|
    ensures var sizes := WarmSizes(size, max, growth);
      && sizes[0] == size && (sizes[i] == max <==> i == |sizes| - 1)
      && (i > 0 ==> GrowsTo(sizes[i - 1], sizes[i], max, growth))
    decreases max - size
  {
    if size < max {
      SizeGrows(size, max, growth);
      if i > 0 {
        WarmSizesGrow(NextSize(size, max, growth), max, growth, i - 1);
      }
    }
  }

  /** Frames in the first `m` chunks of full size from the `n`-th on. */
  function SizesFrom(first: nat, max: nat, growth: real, n: nat, m: nat): nat
    decreases m
  {
    if m == 0 then 0 else SizeAt(first, max, growth, n) + SizesFrom(first, max, growth, n + 1, m - 1)
  }

  lemma {:induction false} SizesFromGrow(first: nat, max: nat, growth: real, n: nat, m: nat)
    requires 1 <= first <= max
    ensures SizesFrom(first, max, growth, n, m) >= m
    decreases m
  {
    if m > 0 {
      SizesRise(first, max, growth, n, n + 1);
      SizesFromGrow(first, max, growth, n + 1, m - 1);
    }
  }

  /** One frame more than `m` full chunks leaves a last chunk of that one frame. */
  lemma {:induction false} OneFrameLeft(a: nat, first: nat, max: nat, growth: real, n: nat, m: nat, total: nat)
    requires 1 <= first <= max && total == a + SizesFrom(first, max, growth, n, m) + 1
    requires SizeAt(first, max, growth, n) >= 1
    ensures var spans := Plan(a, SizeAt(first, max, growth, n), max, growth, total);
      spans != [] && spans[|spans| - 1] == Span(total - 1, total)
    decreases m
  {
    var size := SizeAt(first, max, growth, n);
    if m > 0 {
      SizesRise(first, max, growth, n, n + 1);
      OneFrameLeft(a + size, first, max, growth, n + 1, m - 1, total);
    }
  }

  /** The sizes the warm-up loop visits: from `size` up to and including the maximum. */
  function WarmSizes(size: nat, max: nat, growth: real): seq<nat>
    decreases max - size
  {
    if size >= max then [size] else [size] + WarmSizes(NextSize(size, max, growth), max, growth)
  }

  /** One turn of the warm-up loop, `n` sizes into the schedule. */
  lemma WarmStep(sizes: seq<nat>, n: nat, size: nat, max: nat, growth: real)
    requires n < |sizes| && sizes[n..] == WarmSizes(size, max, growth)
    ensures sizes[n] == size
    ensures if size >= max then n + 1 == |sizes|
      else n + 1 < |sizes| && sizes[n + 1..] == WarmSizes(NextSize(size, max, growth), max, growth)
  {
    assert sizes[n..][0] == sizes[n] && sizes[n..][1..] == sizes[n + 1..];
  }

  /** Warm-up visits every size the planner can ever reach. */
  lemma {:induction false} EverySizeIsWarmed(first: nat, max: nat, growth: real, n: nat, i: nat)
    requires 1 <= first <= max
    ensures SizeAt(first, max, growth, n + i) in WarmSizes(SizeAt(first, max, growth, n), max, growth)
    decreases i
  {
    SizesRise(first, max, growth, n, n + 1);
    if i > 0 {
      if SizeAt(first, max, growth, n) == max {
        SizesRise(first, max, growth, n, n + i);
      } else {
        EverySizeIsWarmed(first, max, growth, n + 1, i - 1);
      }
    }
  }

  // ---------------------------------------------------------------- windows

  function Lo(P: nat, s: Span): int { Max(0, s.a - P) }

  function Hi(P: nat, s: Span, total: int): int { Min(total, s.b + P) }

  function FramesDecoded(spans: seq<Span>, P: nat, total: int): int {
    if spans == [] then 0
    else FramesDecoded(spans[..|spans| - 1], P, total) + Hi(P, spans[|spans| - 1], total) - Lo(P, spans[|spans| - 1])
  }

  ghost predicate Chain(spans: seq<Span>, total: int) {
    && (forall i :: 0 <= i < |spans| ==> 0 <= spans[i].a < spans[i].b <= total)
    && (forall i :: 0 < i < |spans| ==> spans[i - 1].b == spans[i].a)
    && (spans != [] ==> spans[0].a == 0)
  }

  lemma {:induction false} StartsUp(spans: seq<Span>, total: int, i: nat)
    requires Partition(spans, 0, total) && i < |spans|
    ensures 0 <= spans[i].a
  {
    if i > 0 {
      StartsUp(spans, total, i - 1);
    }
  }

  lemma {:induction false} EndsDown(spans: seq<Span>, total: int, i: nat)
    requires Partition(spans, 0, total) && i < |spans|
    ensures spans[i].b <= total && (spans[i].b == total <==> i == |spans| - 1)
    decreases |spans| - i
  {
    if i + 1 < |spans| {
      EndsDown(spans, total, i + 1);
      assert spans[i].b == spans[i + 1].a;
    }
  }

  lemma PartitionIsChain(spans: seq<Span>, total: int)
    requires Partition(spans, 0, total)
    ensures Chain(spans, total)
    ensures forall i :: 0 <= i < |spans| ==> (spans[i].b == total <==> i == |spans| - 1)
  {
    forall i | 0 <= i < |spans|
      ensures 0 <= spans[i].a && spans[i].b <= total && (spans[i].b == total <==> i == |spans| - 1)
    {
      StartsUp(spans, total, i);
      EndsDown(spans, total, i);
    }
  }

  lemma {:induction false} DecodedPrefix(spans: seq<Span>, P: nat, total: int)
    requires Chain(spans, total) && spans != []
    ensures spans[|spans| - 1].b <= FramesDecoded(spans, P, total)
    ensures FramesDecoded(spans, P, total) <= Hi(P, spans[|spans| - 1], total) + 2 * P * (|spans| - 1)
  {
    var n := |spans|;
    if n == 1 {
      assert spans[..0] == [];
    } else {
      var front := spans[..n - 1];
      assert front[|front| - 1] == spans[n - 2] && spans[n - 2].b == spans[n - 1].a;
      DecodedPrefix(front, P, total);
      assert 2 * P * (n - 1) == 2 * P * (n - 2) + 2 * P;
    }
  }

  /** The overlap tax: `n` chunks decode at most `2 P (n - 1)` frames more than there are. */
  lemma OverlapTax(spans: seq<Span>, P: nat, total: int)
    requires Partition(spans, 0, total) && spans != []
    ensures total <= FramesDecoded(spans, P, total) <= total + 2 * P * (|spans| - 1)
  {
    PartitionIsChain(spans, total);
    DecodedPrefix(spans, P, total);
  }

  lemma PlanInside(first: nat, max: nat, growth: real, total: nat, i: nat)
    requires 1 <= first <= max && i < |Plan(0, first, max, growth, total)|
    ensures var s := Plan(0, first, max, growth, total)[i]; 0 <= s.a < s.b <= total
  {
    PlanIsPartition(0, first, max, growth, total);
    PartitionIsChain(Plan(0, first, max, growth, total), total);
  }

  /** Where chunk `i` of the plan lies, and how long it can be. */
  lemma PlanSpan(first: nat, max: nat, growth: real, total: nat, i: nat)
    requires 1 <= first <= max && i < |Plan(0, first, max, growth, total)|
    ensures var s := Plan(0, first, max, growth, total)[i];
      0 <= s.a < s.b <= total && s.b == Min(s.a + SizeAt(first, max, growth, i), total) && s.b - s.a <= max
  {
    PlanInside(first, max, growth, total, i);
    PlanSizes(0, first, max, growth, total, first, 0, i);
    SizesRise(first, max, growth, i, i + 1);
  }
}
