/** Integer and counting facts the solver needs spelled out. */
module Arith {
  function Max(a: int, b: int): int { if a < b then b else a }

  function Min(a: int, b: int): int { if a < b then a else b }

  function CeilDiv(a: nat, b: nat): (q: nat)
    ensures b > 0 ==> a <= q * b < a + b
  {
    if b == 0 then 0 else (a + b - 1) / b
  }

  lemma MulMono(a: int, b: int, c: int)
    requires a <= b && 0 <= c
    ensures a * c <= b * c
  {
  }

  /** Division with remainder is unique. */
  lemma DivUnique(q: int, u: int, j: int)
    requires 0 <= j < u
    ensures (q * u + j) / u == q && (q * u + j) % u == j
  {
    var n := q * u + j;
    var d := n / u - q;
    assert n == (n / u) * u + n % u;
    assert d * u == j - n % u by { assert d * u == (n / u) * u - q * u; }
    if d >= 1 { MulMono(1, d, u); assert false; }
    if d <= -1 { MulMono(d, -1, u); assert false; }
  }

  /** Position `j` of block `s` is one of `len` blocks of size `u` exactly when `s` is. */
  lemma InBlock(s: int, u: int, j: int, len: int)
    requires 0 <= j < u
    ensures 0 <= s * u + j < u * len <==> 0 <= s < len
  {
    if s < len { MulMono(s + 1, len, u); } else { MulMono(len, s, u); }
    if s < 0 { MulMono(s, -1, u); } else { MulMono(0, s, u); }
  }

  lemma Associate(a: int, b: int, c: int)
    ensures a * (b * c) == (b * a) * c
  {
  }

  lemma Distribute(a: int, b: int, c: int)
    ensures (a + b) * c == a * c + b * c
  {
  }

  /** Moving `k` positions inside blocks of size `u` moves at most `CeilDiv(r, u)` blocks. */
  lemma BlockShift(u: nat, j: int, k: int, r: nat) returns (q: int, m: int)
    requires 0 <= j < u && -(r as int) <= k <= r
    ensures 0 <= m < u && j + k == q * u + m
    ensures -(CeilDiv(r, u) as int) <= q <= CeilDiv(r, u)
  {
    q, m := (j + k) / u, (j + k) % u;
    BlockShiftBound(u, j, k, r, CeilDiv(r, u), q, m);
  }

  lemma BlockShiftBound(u: nat, j: int, k: int, r: nat, c: nat, q: int, m: int)
    requires 0 <= j < u && -(r as int) <= k <= r && r <= c * u
    requires 0 <= m < u && j + k == q * u + m
    ensures -(c as int) <= q <= c
  {
    if q > c {
      MulMono(c + 1, q, u);
      Distribute(c, 1, u);
      assert false;
    }
    if q < -(c as int) {
      MulMono(q, -(c as int) - 1, u);
      Distribute(-(c as int), -1, u);
      assert false;
    }
  }

  /** Output `j` of a stage of stride `ua * ub` is output `j % ub` of output `j / ub`. */
  lemma TwoStages(s: int, ua: nat, ub: nat, u: nat, j: int)
    requires u == ua * ub && 0 <= j < u
    ensures ub > 0 && 0 <= j / ub < ua && (s * ua + j / ub) * ub + j % ub == s * u + j
  {
    if ub == 0 { assert false; }
    var i, m := j / ub, j % ub;
    assert j == i * ub + m;
    if i >= ua { MulMono(ua, i, ub); assert false; }
    Distribute(s * ua, i, ub);
    assert s * ua * ub == s * (ua * ub);
  }

  lemma SubsetSize(a: set<nat>, b: set<nat>)
    requires a <= b
    ensures |a| <= |b|
  {
    if a != b {
      assert b == a + (b - a);
    }
  }
}
