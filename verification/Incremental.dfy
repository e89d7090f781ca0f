/** `IncrementalSynthesizer`: clauses are synthesized as they complete, through an LRU cache. */
module Incremental {
  import opened TextSplit
  import opened Fragments
  import opened Lru

  datatype ClauseResult<V> = ClauseResult(text: string, latents: V, fromCache: bool, index: nat)

  /** The texts of results, in order. */
  function Texts<V>(results: seq<ClauseResult<V>>): (texts: seq<string>)
    ensures |texts| == |results|
  {
    seq(|results|, i requires 0 <= i < |results| => results[i].text)
  }

  /** What the results were looked up by. */
  function Keys<V>(normalize: string -> string, results: seq<ClauseResult<V>>): (keys: seq<string>)
    ensures |keys| == |results|
  {
    seq(|results|, i requires 0 <= i < |results| => Key(normalize, results[i]))
  }

  function Key<V>(normalize: string -> string, r: ClauseResult<V>): string {
    normalize(r.text)
  }

  function CountCached<V>(results: seq<ClauseResult<V>>): (n: nat)
    ensures n <= |results|
  {
    if results == [] then 0
    else CountCached(results[..|results| - 1]) + if results[|results| - 1].fromCache then 1 else 0
  }

  lemma {:induction false} CountCachedConcat<V>(a: seq<ClauseResult<V>>, b: seq<ClauseResult<V>>)
    ensures CountCached(a + b) == CountCached(a) + CountCached(b)
  {
    if b == [] {
      assert a + b == a;
    } else {
      CountCachedConcat(a, b[..|b| - 1]);
      assert (a + b)[..|a + b| - 1] == a + b[..|b| - 1];
    }
  }

  /** A result says it came from the cache exactly when its key is among the last `n` distinct ones
      looked up before it. */
  ghost predicate FromCacheIs<V>(results: seq<ClauseResult<V>>, normalize: string -> string, n: nat,
      before: seq<string>) {
    results == []
    || var front, last := results[..|results| - 1], results[|results| - 1];
       && FromCacheIs(front, normalize, n, before)
       && (last.fromCache <==> Key(normalize, last) in LastN(Recency(before + Keys(normalize, front)), n))
  }

  lemma KeysConcat<V>(normalize: string -> string, a: seq<ClauseResult<V>>, b: seq<ClauseResult<V>>,
      before: seq<string>)
    ensures before + Keys(normalize, a + b) == (before + Keys(normalize, a)) + Keys(normalize, b)
  {
    assert Keys(normalize, a + b) == Keys(normalize, a) + Keys(normalize, b);
  }

  /** Results that follow `a`; `middle` is what had been looked up by then. */
  lemma {:induction false} FromCacheConcat<V>(a: seq<ClauseResult<V>>, b: seq<ClauseResult<V>>,
      normalize: string -> string, n: nat, before: seq<string>, middle: seq<string>)
    requires middle == before + Keys(normalize, a)
    requires FromCacheIs(a, normalize, n, before) && FromCacheIs(b, normalize, n, middle)
    ensures FromCacheIs(a + b, normalize, n, before)
    decreases |b|
  {
    if b == [] {
      assert a + b == a;
    } else {
      var front, last := b[..|b| - 1], b[|b| - 1];
      FromCacheConcat(a, front, normalize, n, before, middle);
      KeysConcat(normalize, a, front, before);
      FromCacheSnoc(a + front, last, normalize, n, before, middle + Keys(normalize, front));
      Regroup(a, front, last, b);
    }
  }

  lemma Regroup<V>(a: seq<ClauseResult<V>>, front: seq<ClauseResult<V>>, last: ClauseResult<V>, b: seq<ClauseResult<V>>)
    requires b != [] && front == b[..|b| - 1] && last == b[|b| - 1]
    ensures (a + front) + [last] == a + b
  {
  }

  lemma FromCacheSnoc<V>(front: seq<ClauseResult<V>>, last: ClauseResult<V>, normalize: string -> string, n: nat,
      before: seq<string>, seen: seq<string>)
    requires FromCacheIs(front, normalize, n, before) && seen == before + Keys(normalize, front)
    requires last.fromCache <==> Key(normalize, last) in LastN(Recency(seen), n)
    ensures FromCacheIs(front + [last], normalize, n, before)
  {
    var all := front + [last];
    assert all[..|all| - 1] == front && all[|all| - 1] == last;
  }

  lemma OneFromCache<V>(r: ClauseResult<V>, normalize: string -> string, n: nat, before: seq<string>)
    requires r.fromCache <==> Key(normalize, r) in LastN(Recency(before), n)
    ensures FromCacheIs([r], normalize, n, before) && Keys(normalize, [r]) == [Key(normalize, r)]
    ensures CountCached([r]) == if r.fromCache then 1 else 0
  {
    assert [r][..0] == [] && before + Keys(normalize, [r][..0]) == before;
  }

  /** Clauses that are spoken the same have the same latents. */
  ghost predicate Respects<V(!new)>(latentsFn: string -> V, normalize: string -> string) {
    forall c, d :: normalize(c) == normalize(d) ==> latentsFn(c) == latentsFn(d)
  }

  class IncrementalSynthesizer<V(==,!new)> {
    const latentsFn: string -> V
    const normalize: string -> string
    const cacheSize: nat
    const minChars: int
    var buf: string
    var emitted: nat
    var hits: nat
    var misses: nat
    var clausesEmitted: nat
    // The ordered dictionary: its keys from least to most recently used, and its values.
    var order: seq<string>
    var values: map<string, V>
    // Normalized keys of every clause looked up so far.
    ghost var history: seq<string>

    /** The cache is the one its access history calls for, and every value in it came from a
        clause with that key. */
    ghost predicate CacheValid()
      reads `order, `values, `hits, `misses, `history
    {
      && order == Cache(history, cacheSize)
      && values.Keys == (set k | k in order)
      && (forall k :: k in values ==> exists c :: normalize(c) == k && values[k] == latentsFn(c))
      && hits == Hits(history, cacheSize) && hits + misses == |history|
    }

    /** Between calls the counters agree: hits plus misses is the number of clauses emitted is the
        next index. */
    ghost predicate Valid()
      reads `order, `values, `hits, `misses, `history, `clausesEmitted, `emitted
    {
      CacheValid() && clausesEmitted == emitted == |history|
    }

    constructor (latentsFn: string -> V, normalize: string -> string, cacheSize: nat, minChars: int)
      ensures Valid() && buf == "" && history == [] && emitted == 0
      ensures this.latentsFn == latentsFn && this.normalize == normalize && this.cacheSize == cacheSize
        && this.minChars == minChars
    {
      this.latentsFn := latentsFn;
      this.normalize := normalize;
      this.cacheSize := cacheSize;
      this.minChars := minChars;
      buf, emitted, hits, misses, clausesEmitted := "", 0, 0, 0, 0;
      order, values, history := [], map[], [];
    }

    /** One lookup.  A hit is a key among the last `cacheSize` distinct ones; if the latents respect
        normalization the value is what the uncached call returns. */
    method Synth(clause: string) returns (latents: V, cached: bool)
      requires CacheValid()
      modifies `order, `values, `hits, `misses, `history
      ensures CacheValid() && history == old(history) + [normalize(clause)]
      ensures cached <==> normalize(clause) in LastN(Recency(old(history)), cacheSize)
      ensures hits == old(hits) + (if cached then 1 else 0)
      ensures Respects(latentsFn, normalize) ==> latents == latentsFn(clause)
      ensures !cached ==> latents == latentsFn(clause)
    {
      var key := normalize(clause);
      CacheIsRecent(history, cacheSize);
      if key in values {
        ghost var c :| normalize(c) == key && values[key] == latentsFn(c);
        Touch(key);
        return values[key], true;
      }
      latents := latentsFn(clause);
      Store(clause, key, latents);
      return latents, false;
    }

    /** A hit moves the key to the recent end. */
    method Touch(key: string)
      requires CacheValid() && key in order
      modifies `order, `hits, `history
      ensures CacheValid() && history == old(history) + [key] && hits == old(hits) + 1
    {
      WithoutMembers(order, key);
      HistoryStep(key);
      order := Without(order, key) + [key];
      hits := hits + 1;
      history := history + [key];
    }

    /** A miss inserts the key and evicts beyond the capacity. */
    method Store(ghost clause: string, key: string, latents: V)
      requires CacheValid() && key !in order && key == normalize(clause) && latents == latentsFn(clause)
      modifies `order, `values, `misses, `history
      ensures CacheValid() && history == old(history) + [key]
    {
      HistoryStep(key);
      CacheDistinct(history, cacheSize);
      values := values[key := latents];
      order := order + [key];
      if |order| > cacheSize {
        Evict();
      }
      misses := misses + 1;
      history := history + [key];
    }

    lemma HistoryStep(key: string)
      ensures Cache(history + [key], cacheSize) == Access(Cache(history, cacheSize), key, cacheSize)
      ensures Hits(history + [key], cacheSize)
        == Hits(history, cacheSize) + if key in Cache(history, cacheSize) then 1 else 0
    {
      assert (history + [key])[..|history|] == history;
    }

    /** Drops the least recently used entry. */
    method Evict()
      requires order != [] && Distinct(order) && values.Keys == (set k | k in order)
      modifies `order, `values
      ensures order == old(order)[1..] && values.Keys == (set k | k in order)
      ensures forall k :: k in values ==> k in old(values) && values[k] == old(values)[k]
    {
      values := map k | k in values && k != order[0] :: values[k];
      assert forall k :: k in order <==> k == order[0] || k in order[1..];
      order := order[1..];
    }

    /** What a run of emissions looks like: the clauses in order, numbered on, each with the value
        of the uncached call when latents respect normalization. */
    ghost predicate Emitted(results: seq<ClauseResult<V>>, clauses: seq<string>, from: nat) {
      && Texts(results) == clauses
      && (forall i :: 0 <= i < |results| ==> results[i].index == from + i)
      && (Respects(latentsFn, normalize) ==> forall i :: 0 <= i < |results| ==>
        results[i].latents == latentsFn(clauses[i]))
    }

    /** Every result was looked up, in order; which ones came from the cache is decided by what was
        looked up before, and the hits are counted. */
    ghost predicate LookedUp(results: seq<ClauseResult<V>>, before: seq<string>, hitsBefore: nat)
      reads `history, `hits
    {
      && history == before + Keys(normalize, results) && FromCacheIs(results, normalize, cacheSize, before)
      && hits == hitsBefore + CountCached(results)
    }

    /** Lookups that follow on from one another. */
    lemma LookedUpMore(a: seq<ClauseResult<V>>, b: seq<ClauseResult<V>>, before: seq<string>, middle: seq<string>,
        hitsBefore: nat, hitsMiddle: nat)
      requires middle == before + Keys(normalize, a) && FromCacheIs(a, normalize, cacheSize, before)
      requires hitsMiddle == hitsBefore + CountCached(a) && LookedUp(b, middle, hitsMiddle)
      ensures LookedUp(a + b, before, hitsBefore)
    {
      FromCacheConcat(a, b, normalize, cacheSize, before, middle);
      KeysConcat(normalize, a, b, before);
      CountCachedConcat(a, b);
    }

    lemma NothingLookedUp()
      ensures LookedUp([], history, hits)
    {
      assert history + Keys<V>(normalize, []) == history;
    }

    /** Adds a fragment and emits the clauses it completes, all of them consumed. */
    method Push(fragment: string) returns (results: seq<ClauseResult<V>>)
      requires Valid()
      modifies this
      ensures Valid()
      ensures Emitted(results, PushText(old(buf), fragment, minChars).clauses, old(emitted))
      ensures buf == PushText(old(buf), fragment, minChars).buf
      ensures emitted == old(emitted) + |results|
      ensures LookedUp(results, old(history), old(hits))
    {
      Append(fragment);
      var parts := SplitForStreaming(buf, minChars);
      PushTextIs(old(buf), fragment, minChars, parts);
      if |parts| <= 1 {
        NothingLookedUp();
        return [];
      }
      var complete := parts[..|parts| - 1];
      buf := parts[|parts| - 1];
      results := EmitAll(complete);
    }

    /** Joins the fragment to the buffer, with a blank when neither side supplies one. */
    method Append(fragment: string)
      modifies `buf
      ensures buf == Joined(old(buf), fragment)
    {
      if buf != "" && fragment != "" && !IsSpace(buf[|buf| - 1]) && !IsSpace(fragment[0]) {
        buf := buf + " ";
      }
      buf := buf + fragment;
    }

    method EmitAll(clauses: seq<string>) returns (results: seq<ClauseResult<V>>)
      requires Valid()
      modifies `order, `values, `hits, `misses, `history, `clausesEmitted, `emitted
      ensures Valid() && Emitted(results, clauses, old(emitted)) && emitted == old(emitted) + |clauses|
      ensures LookedUp(results, old(history), old(hits))
    {
      results := [];
      NothingLookedUp();
      for i := 0 to |clauses|
        invariant Valid() && emitted == old(emitted) + i
        invariant Emitted(results, clauses[..i], old(emitted)) && LookedUp(results, old(history), old(hits))
      {
        ghost var middle, hitsMiddle := history, hits;
        var result := EmitOne(clauses[i]);
        EmittedNext(results, clauses, i, old(emitted), result);
        LookedUpMore(results, [result], old(history), middle, old(hits), hitsMiddle);
        results := results + [result];
      }
      assert clauses[..|clauses|] == clauses;
    }

    /** Looks one clause up and numbers it. */
    method EmitOne(clause: string) returns (r: ClauseResult<V>)
      requires Valid()
      modifies `order, `values, `hits, `misses, `history, `clausesEmitted, `emitted
      ensures Valid() && emitted == old(emitted) + 1 && r.text == clause && r.index == old(emitted)
      ensures Respects(latentsFn, normalize) ==> r.latents == latentsFn(clause)
      ensures LookedUp([r], old(history), old(hits))
    {
      var latents, cached := Synth(clause);
      clausesEmitted := clausesEmitted + 1;
      r := ClauseResult(clause, latents, cached, emitted);
      OneFromCache(r, normalize, cacheSize, old(history));
      emitted := emitted + 1;
    }

    lemma EmittedNext(results: seq<ClauseResult<V>>, clauses: seq<string>, i: nat, from: nat, r: ClauseResult<V>)
      requires i < |clauses| && Emitted(results, clauses[..i], from)
      requires r.text == clauses[i] && r.index == from + i
        && (Respects(latentsFn, normalize) ==> r.latents == latentsFn(clauses[i]))
      ensures Emitted(results + [r], clauses[..i + 1], from)
    {
      assert |results| == i;
      assert Texts(results + [r]) == clauses[..i + 1];
    }

    /** Emits whatever remains once the stream ends. */
    method Flush() returns (results: seq<ClauseResult<V>>)
      requires Valid()
      modifies this
      ensures Valid() && buf == ""
      ensures Emitted(results, FlushText(old(buf)), old(emitted)) && emitted == old(emitted) + |results|
      ensures LookedUp(results, old(history), old(hits))
    {
      var tail := Strip(buf);
      buf := "";
      if tail == "" {
        NothingLookedUp();
        return [];
      }
      results := EmitAll([tail]);
    }
  }

  /** A whole session on a fresh synthesizer: for single-spaced text that the fragments cut at
      blanks, the clauses are those of splitting the text at once, and if the latents respect
      normalization they are the uncached latents of those clauses. */
  method Synthesize<V(==,!new)>(s: IncrementalSynthesizer<V>, fragments: seq<string>)
      returns (results: seq<ClauseResult<V>>)
    requires s.Valid() && s.buf == "" && s.emitted == 0
    modifies s
    ensures s.Valid() && s.Emitted(results, Session(fragments, s.minChars), 0)
    ensures SingleSpaced(Assembled(fragments)) ==> Texts(results) == Split(Assembled(fragments), s.minChars)
    ensures SingleSpaced(Concat(fragments)) && CutAtBlanks(fragments) ==>
      Texts(results) == Split(Concat(fragments), s.minChars)
    ensures s.hits + s.misses == s.clausesEmitted == s.emitted == |results|
    ensures FromCacheIs(results, s.normalize, s.cacheSize, []) && s.hits == CountCached(results)
  {
    results := PushAll(s, fragments);
    ghost var middle, hitsMiddle := s.history, s.hits;
    var rest := s.Flush();
    s.LookedUpMore(results, rest, [], middle, 0, hitsMiddle);
    EmittedMore(s, results, rest, Feed(fragments, s.minChars).clauses, FlushText(Feed(fragments, s.minChars).buf));
    results := results + rest;
    SessionTexts(fragments, s.minChars);
  }

  lemma SessionTexts(fragments: seq<string>, minChars: int)
    ensures SingleSpaced(Assembled(fragments)) ==> Session(fragments, minChars) == Split(Assembled(fragments), minChars)
    ensures SingleSpaced(Concat(fragments)) && CutAtBlanks(fragments) ==>
      Session(fragments, minChars) == Split(Concat(fragments), minChars)
  {
    if SingleSpaced(Assembled(fragments)) {
      SessionIsSplit(fragments, minChars);
    }
    if SingleSpaced(Concat(fragments)) && CutAtBlanks(fragments) {
      AssembledIs(fragments);
    }
  }

  method PushAll<V(==,!new)>(s: IncrementalSynthesizer<V>, fragments: seq<string>)
      returns (results: seq<ClauseResult<V>>)
    requires s.Valid() && s.buf == "" && s.emitted == 0
    modifies s
    ensures s.Valid() && s.emitted == |results| && s.buf == Feed(fragments, s.minChars).buf
    ensures s.Emitted(results, Feed(fragments, s.minChars).clauses, 0)
    ensures s.LookedUp(results, [], 0)
  {
    results := [];
    s.NothingLookedUp();
    ghost var fed := Feed([], s.minChars);
    for i := 0 to |fragments|
      invariant s.Valid() && s.emitted == |results|
      invariant fed == Feed(fragments[..i], s.minChars) && s.buf == fed.buf
      invariant s.Emitted(results, fed.clauses, 0) && s.LookedUp(results, [], 0)
    {
      ghost var now := PushText(fed.buf, fragments[i], s.minChars);
      FeedNext(fragments, i, s.minChars);
      ghost var middle, hitsMiddle := s.history, s.hits;
      var more := s.Push(fragments[i]);
      EmittedMore(s, results, more, fed.clauses, now.clauses);
      s.LookedUpMore(results, more, [], middle, 0, hitsMiddle);
      results := results + more;
      fed := Pushed(fed.clauses + now.clauses, now.buf);
    }
    assert fragments[..|fragments|] == fragments;
  }

  lemma PushTextIs(buf: string, fragment: string, minChars: int, parts: seq<string>)
    requires parts == Split(Joined(buf, fragment), minChars)
    ensures PushText(buf, fragment, minChars)
      == if |parts| <= 1 then Pushed([], Joined(buf, fragment)) else Pushed(parts[..|parts| - 1], parts[|parts| - 1])
  {
  }

  lemma FeedNext(fragments: seq<string>, i: nat, minChars: int)
    requires i < |fragments|
    ensures var before := Feed(fragments[..i], minChars);
      var now := PushText(before.buf, fragments[i], minChars);
      Feed(fragments[..i + 1], minChars) == Pushed(before.clauses + now.clauses, now.buf)
  {
    assert fragments[..i + 1][..i] == fragments[..i];
  }

  lemma EmittedMore<V(!new)>(s: IncrementalSynthesizer<V>, a: seq<ClauseResult<V>>, b: seq<ClauseResult<V>>,
      c: seq<string>, d: seq<string>)
    requires s.Emitted(a, c, 0) && s.Emitted(b, d, |a|)
    ensures s.Emitted(a + b, c + d, 0)
  {
    assert Texts(a + b) == Texts(a) + Texts(b);
  }
}
