/** Least-recently-used eviction as a function of the whole access history. */
module Lru {
  function Without<K(==)>(s: seq<K>, k: K): (r: seq<K>)
    ensures |r| <= |s| && k !in r
  {
    if s == [] then []
    else if s[|s| - 1] == k then Without(s[..|s| - 1], k)
    else Without(s[..|s| - 1], k) + [s[|s| - 1]]
  }

  /** The distinct keys of a history, least recently used first. */
  function Recency<K(==)>(history: seq<K>): seq<K> {
    if history == [] then []
    else Without(Recency(history[..|history| - 1]), history[|history| - 1]) + [history[|history| - 1]]
  }

  function LastN<K>(s: seq<K>, n: nat): seq<K> {
    if |s| <= n then s else s[|s| - n..]
  }

  /** One access to a cache of `n` keys kept in recency order. */
  function Access<K(==)>(order: seq<K>, k: K, n: nat): seq<K> {
    if k in order then Without(order, k) + [k]
    else if |order| + 1 > n then (order + [k])[1..]
    else order + [k]
  }

  function Cache<K(==)>(history: seq<K>, n: nat): seq<K> {
    if history == [] then [] else Access(Cache(history[..|history| - 1], n), history[|history| - 1], n)
  }

  function Hits<K(==)>(history: seq<K>, n: nat): (h: nat)
    ensures h <= |history|
  {
    if history == [] then 0
    else
      var before, k := history[..|history| - 1], history[|history| - 1];
      Hits(before, n) + if k in Cache(before, n) then 1 else 0
  }

  ghost predicate Distinct<K>(s: seq<K>) {
    forall i, j :: 0 <= i < j < |s| ==> s[i] != s[j]
  }

  // ---------------------------------------------------------------- removing a key

  lemma {:induction false} WithoutAbsent<K>(s: seq<K>, k: K)
    requires k !in s
    ensures Without(s, k) == s
  {
    if s != [] {
      assert k !in s[..|s| - 1];
      WithoutAbsent(s[..|s| - 1], k);
      assert s == s[..|s| - 1] + [s[|s| - 1]];
    }
  }

  lemma {:induction false} WithoutConcat<K>(u: seq<K>, v: seq<K>, k: K)
    ensures Without(u + v, k) == Without(u, k) + Without(v, k)
  {
    if v == [] {
      assert u + v == u;
    } else {
      assert (u + v)[..|u + v| - 1] == u + v[..|v| - 1];
      WithoutConcat(u, v[..|v| - 1], k);
    }
  }

  lemma {:induction false} WithoutMembers<K>(s: seq<K>, k: K)
    ensures forall x :: x in Without(s, k) <==> x in s && x != k
    ensures Distinct(s) ==> Distinct(Without(s, k)) && |Without(s, k)| == |s| - (if k in s then 1 else 0)
  {
    if s != [] {
      var front, last := s[..|s| - 1], s[|s| - 1];
      WithoutMembers(front, k);
      assert forall x :: x in s <==> x in front || x == last;
      if Distinct(s) {
        assert last !in front;
        assert last !in Without(front, k);
      }
    }
  }

  // ---------------------------------------------------------------- recency

  /** The position after the last access to `k`, zero if there was none. */
  function LastUse<K(==)>(history: seq<K>, k: K): nat {
    if history == [] then 0
    else if history[|history| - 1] == k then |history|
    else LastUse(history[..|history| - 1], k)
  }

  lemma {:induction false} LastUseBounds<K>(history: seq<K>, k: K)
    ensures LastUse(history, k) <= |history| && (LastUse(history, k) > 0 <==> k in history)
  {
    if history != [] {
      LastUseBounds(history[..|history| - 1], k);
      assert k in history <==> k in history[..|history| - 1] || k == history[|history| - 1];
    }
  }

  /** Recency lists exactly the keys used, once each, in the order of their last uses. */
  lemma {:induction false} RecencyIs<K(!new)>(history: seq<K>)
    ensures Distinct(Recency(history))
    ensures forall k :: k in Recency(history) <==> k in history
    ensures forall i, j :: 0 <= i < j < |Recency(history)| ==>
      LastUse(history, Recency(history)[i]) < LastUse(history, Recency(history)[j])
  {
    if history != [] {
      var before, k := history[..|history| - 1], history[|history| - 1];
      assert history == before + [k];
      RecencyIs(before);
      RecencyKeys(before, k);
      RecencyOrder(before, k);
    }
  }

  lemma RecencyKeys<K(!new)>(before: seq<K>, k: K)
    requires Distinct(Recency(before)) && forall x :: x in Recency(before) <==> x in before
    ensures var r := Without(Recency(before), k) + [k];
      Distinct(r) && forall x :: x in r <==> x in before + [k]
  {
    WithoutMembers(Recency(before), k);
  }

  lemma {:induction false} WithoutKeepsOrder<K>(s: seq<K>, k: K, rank: K -> int)
    requires forall i, j :: 0 <= i < j < |s| ==> rank(s[i]) < rank(s[j])
    ensures forall i, j :: 0 <= i < j < |Without(s, k)| ==> rank(Without(s, k)[i]) < rank(Without(s, k)[j])
    ensures forall x :: x in Without(s, k) ==> x in s
  {
    if s != [] {
      var front, last := s[..|s| - 1], s[|s| - 1];
      WithoutKeepsOrder(front, k, rank);
      forall x | x in front ensures rank(x) < rank(last) {
        var i :| 0 <= i < |front| && front[i] == x;
        assert s[i] == x;
      }
      forall i | 0 <= i < |Without(front, k)| ensures rank(Without(front, k)[i]) < rank(last) {
        assert Without(front, k)[i] in front;
      }
    }
  }

  lemma RecencyOrder<K>(before: seq<K>, k: K)
    requires forall i, j :: 0 <= i < j < |Recency(before)| ==>
      LastUse(before, Recency(before)[i]) < LastUse(before, Recency(before)[j])
    ensures var r, history := Without(Recency(before), k) + [k], before + [k];
      forall i, j :: 0 <= i < j < |r| ==> LastUse(history, r[i]) < LastUse(history, r[j])
  {
    var w, history := Without(Recency(before), k), before + [k];
    var r := w + [k];
    assert history[..|before|] == before;
    WithoutKeepsOrder(Recency(before), k, x => LastUse(before, x));
    forall i, j | 0 <= i < j < |r| ensures LastUse(history, r[i]) < LastUse(history, r[j]) {
      assert r[i] == w[i] && w[i] in w && w[i] != k;
      assert LastUse(history, r[i]) == LastUse(before, r[i]);
      LastUseBounds(before, r[i]);
      if j < |w| {
        assert r[j] == w[j] && w[j] in w && w[j] != k;
      }
    }
  }

  lemma {:induction false} CacheDistinct<K(!new)>(history: seq<K>, n: nat)
    ensures Distinct(Cache(history, n)) && |Cache(history, n)| <= n
  {
    CacheIsRecent(history, n);
    RecencyIs(history);
    var r := Recency(history);
    if |r| > n {
      assert r == r[..|r| - n] + r[|r| - n..];
      DistinctPart(r[..|r| - n], r[|r| - n..]);
    }
  }

  // ---------------------------------------------------------------- refinement and inclusion

  /** Touching a key that is among the last `n`. */
  lemma TouchInside<K>(u: seq<K>, v: seq<K>, k: K)
    requires Distinct(u + v) && k in v
    ensures Without(u + v, k) + [k] == u + (Without(v, k) + [k]) && |Without(v, k) + [k]| == |v|
  {
    DistinctApart(u, v, k);
    DistinctPart(u, v);
    WithoutConcat(u, v, k);
    WithoutAbsent(u, k);
    WithoutMembers(v, k);
  }

  lemma DistinctApart<K>(u: seq<K>, v: seq<K>, k: K)
    requires Distinct(u + v) && k in v
    ensures k !in u
  {
    forall i | 0 <= i < |u| ensures u[i] != k {
      var j :| 0 <= j < |v| && v[j] == k;
      assert (u + v)[i] == u[i] && (u + v)[|u| + j] == v[j];
    }
  }

  lemma DistinctPart<K>(u: seq<K>, v: seq<K>)
    requires Distinct(u + v)
    ensures Distinct(v)
  {
    forall i, j | 0 <= i < j < |v| ensures v[i] != v[j] {
      assert (u + v)[|u| + i] == v[i] && (u + v)[|u| + j] == v[j];
    }
  }

  /** Touching a key that is not. */
  lemma TouchOutside<K>(u: seq<K>, v: seq<K>, k: K, n: nat)
    requires k !in v && n > 0 && (|v| == n || (|v| < n && u == []))
    ensures LastN(Without(u + v, k) + [k], n) == Access(v, k, n)
  {
    WithoutConcat(u, v, k);
    WithoutAbsent(v, k);
    if |v| == n {
      LastOfConcat(Without(u, k), v, k, n);
    } else {
      assert [] + v == v && Without(u, k) == [];
    }
  }

  lemma LastOfConcat<K>(u: seq<K>, v: seq<K>, k: K, n: nat)
    requires |v| == n
    ensures LastN((u + v) + [k], n) == LastN(v + [k], n)
  {
    assert (u + v) + [k] == u + (v + [k]);
  }

  lemma SuffixWithout<K>(s: seq<K>, k: K, n: nat)
    requires Distinct(s) && n > 0
    ensures LastN(Without(s, k) + [k], n) == Access(LastN(s, n), k, n)
  {
    var cut := if |s| <= n then 0 else |s| - n;
    var u, v := s[..cut], s[cut..];
    assert s == u + v && v == LastN(s, n);
    if k in v {
      TouchInside(u, v, k);
    } else {
      TouchOutside(u, v, k, n);
    }
  }

  /** After any history the cache holds exactly the last `n` distinct keys used, in recency order. */
  lemma {:induction false} CacheIsRecent<K(!new)>(history: seq<K>, n: nat)
    ensures Cache(history, n) == LastN(Recency(history), n)
  {
    if history != [] {
      var before, k := history[..|history| - 1], history[|history| - 1];
      CacheIsRecent(before, n);
      if n > 0 {
        RecencyIs(before);
        SuffixWithout(Recency(before), k, n);
      }
    }
  }

  /** Inclusion: a larger cache holds everything a smaller one does, as the same most recent part. */
  lemma LargerCacheContains<K(!new)>(history: seq<K>, m: nat, n: nat)
    requires m <= n
    ensures Cache(history, m) == LastN(Cache(history, n), m)
    ensures forall k :: k in Cache(history, m) ==> k in Cache(history, n)
  {
    CacheIsRecent(history, m);
    CacheIsRecent(history, n);
  }

  /** A larger cache never has fewer hits. */
  lemma {:induction false} LargerCacheHitsMore<K(!new)>(history: seq<K>, m: nat, n: nat)
    requires m <= n
    ensures Hits(history, m) <= Hits(history, n)
  {
    if history != [] {
      LargerCacheHitsMore(history[..|history| - 1], m, n);
      LargerCacheContains(history[..|history| - 1], m, n);
    }
  }
}
