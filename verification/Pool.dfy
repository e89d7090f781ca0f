/** The endpoint pool: least-loaded acquisition, and health from consecutive failures. */
module Pool {
  import opened Arith

  const UNHEALTHY_AFTER_FAILURES := 3

  /** The state of one endpoint. */
  datatype Entry = Entry(inFlight: int, failures: int, healthy: bool)

  // ---------------------------------------------------------------- the choice

  predicate Eligible(view: seq<Entry>, i: nat, all: bool)
    requires i < |view|
  {
    all || view[i].healthy
  }

  /** The first least-loaded eligible endpoint among the first `n`, or -1. */
  function Least(view: seq<Entry>, n: nat, all: bool): (best: int)
    requires n <= |view|
    ensures -1 <= best < n
  {
    if n == 0 then -1
    else
      var best := Least(view, n - 1, all);
      if Eligible(view, n - 1, all) && (best == -1 || view[n - 1].inFlight < view[best].inFlight) then n - 1 else best
  }

  /** The endpoint the next lease goes to; unhealthy ones count when there is no other. */
  function Pick(view: seq<Entry>): (best: int)
    ensures -1 <= best < |view|
  {
    if Least(view, |view|, false) != -1 then Least(view, |view|, false) else Least(view, |view|, true)
  }

  lemma {:induction false} LeastIs(view: seq<Entry>, n: nat, all: bool)
    requires n <= |view|
    ensures var best := Least(view, n, all);
      && (best == -1 <==> forall j :: 0 <= j < n ==> !Eligible(view, j, all))
      && (best != -1 ==> Eligible(view, best, all) && forall j :: 0 <= j < n && Eligible(view, j, all) ==>
            view[best].inFlight <= view[j].inFlight && (j < best ==> view[best].inFlight < view[j].inFlight))
  {
    if n > 0 {
      LeastIs(view, n - 1, all);
    }
  }

  /** A lease is refused only by an empty pool; otherwise it goes to an endpoint no healthy one
      is less loaded than, and to an unhealthy one only when all are. */
  lemma PickIsLeastLoaded(view: seq<Entry>)
    ensures Pick(view) == -1 <==> view == []
    ensures Pick(view) != -1 ==>
      && (view[Pick(view)].healthy || forall j :: 0 <= j < |view| ==> !view[j].healthy)
      && forall j :: 0 <= j < |view| && (view[j].healthy || !view[Pick(view)].healthy) ==>
        view[Pick(view)].inFlight <= view[j].inFlight
  {
    LeastIs(view, |view|, false);
    LeastIs(view, |view|, true);
    assert forall j :: 0 <= j < |view| ==> Eligible(view, j, true) && (Eligible(view, j, false) <==> view[j].healthy);
  }

  // ---------------------------------------------------------------- operations on states

  function Acquired(view: seq<Entry>): seq<Entry>
    requires Pick(view) != -1
  {
    view[Pick(view) := view[Pick(view)].(inFlight := view[Pick(view)].inFlight + 1)]
  }

  function Released(e: Entry, failed: bool): Entry {
    if failed then
      Entry(e.inFlight - 1, e.failures + 1, if e.failures + 1 >= UNHEALTHY_AFTER_FAILURES then false else e.healthy)
    else Entry(e.inFlight - 1, 0, true)
  }

  function Probed(e: Entry, answers: bool): Entry {
    if answers then e.(healthy := true, failures := 0) else e.(healthy := false)
  }

  // ---------------------------------------------------------------- the pool

  class PoolEntry {
    const addr: string
    var inFlight: int
    var failures: int
    var healthy: bool

    constructor (addr: string)
      ensures this.addr == addr && View() == Entry(0, 0, true)
    {
      this.addr := addr;
      inFlight, failures, healthy := 0, 0, true;
    }

    function View(): Entry
      reads this
    {
      Entry(inFlight, failures, healthy)
    }

    /** Records whether the endpoint answered a readiness probe. */
    method Probe(answers: bool)
      modifies this
      ensures View() == Probed(old(View()), answers)
    {
      if answers {
        healthy := true;
        failures := 0;
      } else {
        healthy := false;
      }
    }
  }

  /** A checked-out endpoint, or none. */
  class Lease {
    const entry: PoolEntry?

    constructor (entry: PoolEntry?)
      ensures this.entry == entry
    {
      this.entry := entry;
    }

    /** Returns the endpoint and records whether the request succeeded. */
    method Release(failed: bool)
      modifies entry
      ensures entry != null ==> entry.View() == Released(old(entry.View()), failed)
    {
      if entry == null {
        return;
      }
      entry.inFlight := entry.inFlight - 1;
      if failed {
        entry.failures := entry.failures + 1;
        if entry.failures >= UNHEALTHY_AFTER_FAILURES {
          entry.healthy := false;
        }
        return;
      }
      entry.failures := 0;
      entry.healthy := true;
    }
  }

  class EndpointPool {
    const entries: seq<PoolEntry>

    ghost predicate Valid() {
      forall i, j :: 0 <= i < j < |entries| ==> entries[i] != entries[j]
    }

    function View(): (view: seq<Entry>)
      reads entries
      ensures |view| == |entries|
    {
      ViewOf(entries)
    }

    constructor (entries: seq<PoolEntry>)
      requires forall i, j :: 0 <= i < j < |entries| ==> entries[i] != entries[j]
      ensures Valid() && this.entries == entries
    {
      this.entries := entries;
    }

    /** Picks the healthy endpoint with the fewest leases and counts one more on it. */
    method Acquire() returns (lease: Lease?)
      requires Valid()
      modifies entries
      ensures lease == null <==> Pick(old(View())) == -1
      ensures lease == null ==> View() == old(View())
      ensures lease != null ==>
        fresh(lease) && lease.entry == entries[Pick(old(View()))] && View() == Acquired(old(View()))
    {
      var best: int, bestLoad := -1, 0;
      for i := 0 to |entries|
        invariant best == Least(View(), i, false) && (best != -1 ==> bestLoad == View()[best].inFlight)
      {
        if !entries[i].healthy {
          continue;
        }
        var load := entries[i].inFlight;
        if best == -1 || load < bestLoad {
          best, bestLoad := i, load;
        }
      }
      if best == -1 {
        for i := 0 to |entries|
          invariant best == Least(View(), i, true) && (best != -1 ==> bestLoad == View()[best].inFlight)
        {
          var load := entries[i].inFlight;
          if best == -1 || load < bestLoad {
            best, bestLoad := i, load;
          }
        }
      }
      if best == -1 {
        return null;
      }
      Bump(best);
      lease := new Lease(entries[best]);
    }

    method Bump(i: nat)
      requires Valid() && i < |entries|
      modifies entries[i]
      ensures View() == old(View())[i := old(View())[i].(inFlight := old(View())[i].inFlight + 1)]
    {
      entries[i].inFlight := entries[i].inFlight + 1;
    }

    /** Probes every endpoint; `answers` is what each one said.  Counts the ones that answer. */
    method Ready(answers: seq<bool>) returns (ok: nat)
      requires Valid() && |answers| == |entries|
      modifies entries
      ensures View() == seq(|entries|, i requires 0 <= i < |entries| => Probed(old(View())[i], answers[i]))
      ensures ok == |Answering(answers, |answers|)|
    {
      ok := 0;
      ghost var before := View();
      for i := 0 to |entries|
        invariant forall j :: 0 <= j < i ==> entries[j].View() == Probed(before[j], answers[j])
        invariant forall j :: i <= j < |entries| ==> entries[j].View() == before[j]
        invariant ok == |Answering(answers, i)|
      {
        AnsweringStep(answers, i);
        if answers[i] {
          ok := ok + 1;
        }
        entries[i].Probe(answers[i]);
      }
    }
  }

  /** The endpoints among the first `n` that answered. */
  ghost function Answering(answers: seq<bool>, n: nat): set<nat>
    requires n <= |answers|
  {
    set i: nat | i < n && answers[i]
  }

  lemma AnsweringStep(answers: seq<bool>, n: nat)
    requires n < |answers|
    ensures |Answering(answers, n + 1)| == |Answering(answers, n)| + if answers[n] then 1 else 0
  {
    assert Answering(answers, n + 1) == if answers[n] then Answering(answers, n) + {n} else Answering(answers, n);
  }

  function ViewOf(entries: seq<PoolEntry>): (view: seq<Entry>)
    reads entries
    ensures |view| == |entries|
    ensures forall i :: 0 <= i < |entries| ==> view[i] == entries[i].View()
  {
    if entries == [] then [] else ViewOf(entries[..|entries| - 1]) + [entries[|entries| - 1].View()]
  }

  // ---------------------------------------------------------------- health is history

  /** What one endpoint has been through. */
  datatype Outcome = Acquire | Success | Failure | GoodProbe | BadProbe

  function After(e: Entry, o: Outcome): Entry {
    match o
    case Acquire => e.(inFlight := e.inFlight + 1)
    case Success => Released(e, false)
    case Failure => Released(e, true)
    case GoodProbe => Probed(e, true)
    case BadProbe => Probed(e, false)
  }

  function Lived(history: seq<Outcome>): Entry {
    if history == [] then Entry(0, 0, true)
    else After(Lived(history[..|history| - 1]), history[|history| - 1])
  }

  /** Failures since the last success or good probe. */
  function Streak(history: seq<Outcome>): nat {
    if history == [] then 0
    else match history[|history| - 1]
      case Success => 0
      case GoodProbe => 0
      case Failure => Streak(history[..|history| - 1]) + 1
      case Acquire => Streak(history[..|history| - 1])
      case BadProbe => Streak(history[..|history| - 1])
  }

  /** A failed probe since the last success or good probe. */
  predicate Condemned(history: seq<Outcome>) {
    history != [] && match history[|history| - 1]
      case Success => false
      case GoodProbe => false
      case BadProbe => true
      case Failure => Condemned(history[..|history| - 1])
      case Acquire => Condemned(history[..|history| - 1])
  }

  function Count(history: seq<Outcome>, o: Outcome): nat { multiset(history)[o] }

  /** An endpoint's state is its history: the leases out are those taken and not given back, the
      failure counter is the trailing streak, and it is healthy exactly when that streak is under
      three and no probe has failed since it last worked. */
  lemma {:induction false} StateIsHistory(history: seq<Outcome>)
    ensures Lived(history).inFlight == Count(history, Acquire) - Count(history, Success) - Count(history, Failure)
    ensures Lived(history).failures == Streak(history)
    ensures Lived(history).healthy <==> Streak(history) < 3 && !Condemned(history)
  {
    if history != [] {
      StateIsHistory(history[..|history| - 1]);
      assert history == history[..|history| - 1] + [history[|history| - 1]];
    }
  }

  // ---------------------------------------------------------------- balance

  function Fresh(k: nat): seq<Entry> { seq(k, _ => Entry(0, 0, true)) }

  function AfterAcquires(k: nat, n: nat): (view: seq<Entry>)
    requires k > 0
    ensures |view| == k
  {
    if n == 0 then Fresh(k)
    else
      var view := AfterAcquires(k, n - 1);
      PickIsLeastLoaded(view);
      Acquired(view)
  }

  /** Leases pile up evenly: after `n` acquisitions from `k` fresh endpoints and no releases,
      endpoint `i` has exactly `(n + k - 1 - i) / k` of them. */
  lemma {:induction false} LeasesAreSpread(k: nat, n: nat)
    requires k > 0
    ensures forall i :: 0 <= i < k ==> AfterAcquires(k, n)[i] == Entry((n + k - 1 - i) / k, 0, true)
  {
    forall i | 0 <= i < k ensures ShareOf(k, n, i) == (n + k - 1 - i) / k {
      ShareIs(k, n, i);
    }
    SpreadByShare(k, n);
  }

  /** Every endpoint has `n / k` leases, the first `n % k` one more. */
  function ShareOf(k: nat, n: nat, i: nat): nat
    requires k > 0
  {
    n / k + if i < n % k then 1 else 0
  }

  lemma ShareIs(k: nat, n: nat, i: nat)
    requires i < k
    ensures ShareOf(k, n, i) == (n + k - 1 - i) / k
  {
    var q, r := n / k, n % k;
    assert n == q * k + r;
    if i < r {
      Distribute(q, 1, k);
      DivUnique(q + 1, k, r - 1 - i);
    } else {
      DivUnique(q, k, r + k - 1 - i);
    }
  }

  lemma {:induction false} SpreadByShare(k: nat, n: nat)
    requires k > 0
    ensures forall i :: 0 <= i < k ==> AfterAcquires(k, n)[i] == Entry(ShareOf(k, n, i), 0, true)
  {
    if n > 0 {
      SpreadByShare(k, n - 1);
      var view := AfterAcquires(k, n - 1);
      PickIsNext(view, k, n - 1);
      NextShare(k, n - 1);
    }
  }

  lemma PickIsNext(view: seq<Entry>, k: nat, n: nat)
    requires k > 0 && |view| == k && forall i :: 0 <= i < k ==> view[i] == Entry(ShareOf(k, n, i), 0, true)
    ensures Pick(view) == n % k
  {
    LeastIs(view, k, false);
    var best, r := Least(view, k, false), n % k;
    assert Eligible(view, r, false);
    if best != r {
      assert false;
    }
  }

  lemma NextShare(k: nat, n: nat)
    requires k > 0
    ensures forall i :: 0 <= i < k ==> ShareOf(k, n + 1, i) == ShareOf(k, n, i) + if i == n % k then 1 else 0
  {
    var q, r := n / k, n % k;
    assert n == q * k + r;
    if r + 1 < k {
      DivUnique(q, k, r + 1);
    } else {
      Distribute(q, 1, k);
      DivUnique(q + 1, k, 0);
    }
  }
}
