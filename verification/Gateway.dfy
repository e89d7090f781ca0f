/** The gateway's handlers: admission, sessions and leases paired over every path through
    `handleStream`, `synthesizeToSocket` and `handleBatch`, any number of them interleaved. */
module Gateway {
  import opened Arith

  /** How far a request got on its endpoint. */
  datatype Stage = Frontend | Latents | Streaming | Replying

  datatype Pc =
    | Gone                                   // not there yet, or returned
    | Admitted                               // counted by admission, not upgraded yet
    | Reading                                // a session waiting for its next message
    | Acquiring                              // a message in hand, no endpoint yet
    | Synthesizing(lease: nat, stage: Stage)
    | Leaving                                // the session is over
    | Closing                                // everything but the admission is given back
    | Batch                                  // a batch call past its checks
    | BatchOn(lease: nat, stage: Stage)
    | BatchEnd

  datatype State = State(inFlight: int, sessions: int, load: seq<int>, handlers: map<nat, Pc>)

  datatype Message = Closed | Malformed | Text

  datatype Step =
    | Arrive(who: nat, admit: bool)
    | Upgrade(who: nat, ok: bool)
    | Read(who: nat, message: Message)
    | Acquire(who: nat, endpoint: int)       // -1 when the pool has none
    | Advance(who: nat)                      // the current stage succeeds
    | Release(who: nat, failed: bool)        // the deferred lease release, on success or error
    | EndSession(who: nat)
    | Close(who: nat)
    | BatchArrive(who: nat, accepted: bool)  // method, pressure and body checks
    | BatchReturn(who: nat)

  function At(s: State, t: nat): Pc {
    if t in s.handlers then s.handlers[t] else Gone
  }

  function Next(stage: Stage): Stage {
    match stage
    case Frontend => Latents
    case Latents => Streaming
    case _ => Replying
  }

  predicate Enabled(s: State, step: Step) {
    match step
    case Arrive(t, _) => At(s, t) == Gone
    case Upgrade(t, _) => At(s, t) == Admitted
    case Read(t, _) => At(s, t) == Reading
    case Acquire(t, i) => (At(s, t) == Acquiring || At(s, t) == Batch) && -1 <= i < |s.load|
    case Advance(t) => (At(s, t).Synthesizing? || At(s, t).BatchOn?) && At(s, t).stage != Replying
    // A lease goes back when a stage fails, or when the reply is out; the reply itself may fail.
    case Release(t, failed) => (At(s, t).Synthesizing? || At(s, t).BatchOn?) && At(s, t).lease < |s.load|
      && (failed || At(s, t).stage == Replying)
    case EndSession(t) => At(s, t) == Leaving
    case Close(t) => At(s, t) == Closing
    case BatchArrive(t, _) => At(s, t) == Gone
    case BatchReturn(t) => At(s, t) == BatchEnd
  }

  /** Where the step takes its handler. */
  function Target(s: State, step: Step): Pc
    requires Enabled(s, step)
  {
    match step
    case Arrive(_, admit) => if admit then Admitted else Gone
    case Upgrade(_, ok) => if ok then Reading else Closing
    case Read(_, message) => if message == Closed then Leaving else if message == Malformed then Reading else Acquiring
    case Acquire(t, i) =>
      if At(s, t) == Batch then (if i == -1 then BatchEnd else BatchOn(i, Frontend))
      else if i == -1 then Leaving else Synthesizing(i, Frontend)
    case Advance(t) =>
      var pc := At(s, t);
      if pc.Synthesizing? then Synthesizing(pc.lease, Next(pc.stage)) else BatchOn(pc.lease, Next(pc.stage))
    case Release(t, failed) => if At(s, t).BatchOn? then BatchEnd else if failed then Leaving else Reading
    case EndSession(_) => Closing
    case Close(_) => Gone
    case BatchArrive(_, accepted) => if accepted then Batch else Gone
    case BatchReturn(_) => Gone
  }

  function AddLoad(load: seq<int>, i: nat, d: int): seq<int> {
    if i < |load| then load[i := load[i] + d] else load
  }

  function Apply(s: State, step: Step): State
    requires Enabled(s, step)
  {
    var s' := match step
      case Arrive(_, admit) => if admit then s.(inFlight := s.inFlight + 1) else s
      case Upgrade(_, ok) => if ok then s.(sessions := s.sessions + 1) else s
      case Acquire(_, i) => if i == -1 then s else s.(load := AddLoad(s.load, i, 1))
      case Release(t, _) => s.(load := AddLoad(s.load, At(s, t).lease, -1))
      case EndSession(_) => s.(sessions := s.sessions - 1)
      case Close(_) => s.(inFlight := Max(0, s.inFlight - 1))
      case _ => s;
    s'.(handlers := s.handlers[step.who := Target(s, step)])
  }

  ghost predicate Legal(s: State, steps: seq<Step>)
    decreases |steps|
  {
    steps == [] || (Enabled(s, steps[0]) && Legal(Apply(s, steps[0]), steps[1..]))
  }

  ghost function Exec(s: State, steps: seq<Step>): State
    requires Legal(s, steps)
    decreases |steps|
  {
    if steps == [] then s else Exec(Apply(s, steps[0]), steps[1..])
  }

  function Initial(endpoints: nat): State {
    State(0, 0, seq(endpoints, _ => 0), map[])
  }

  // ---------------------------------------------------------------- counting handlers

  datatype Class = InAdmission | InSession | InBatch | Holding(endpoint: nat) | HoldingBelow(n: nat)

  predicate Has(pc: Pc, c: Class) {
    match c
    case InAdmission =>
      pc == Admitted || pc == Closing || pc == Reading || pc == Acquiring || pc.Synthesizing? || pc == Leaving
    case InSession => pc == Reading || pc == Acquiring || pc.Synthesizing? || pc == Leaving
    case InBatch => pc == Batch || pc.BatchOn? || pc == BatchEnd
    case Holding(i) => (pc.Synthesizing? || pc.BatchOn?) && pc.lease == i
    case HoldingBelow(n) => (pc.Synthesizing? || pc.BatchOn?) && pc.lease < n
  }

  ghost function Who(s: State, c: Class): set<nat> {
    set t | t in s.handlers && Has(s.handlers[t], c)
  }

  function Bit(b: bool): int { if b then 1 else 0 }

  lemma MoveCounts(s: State, s': State, t: nat, pc: Pc, c: Class)
    requires s'.handlers == s.handlers[t := pc]
    ensures |Who(s', c)| == |Who(s, c)| + Bit(Has(pc, c)) - Bit(Has(At(s, t), c))
  {
    GoneHoldsNothing(c);
    forall x ensures x in Who(s', c) <==> if x == t then Has(pc, c) else x in Who(s, c) {
    }
    MemberCounts(Who(s, c), Who(s', c), t);
  }

  lemma GoneHoldsNothing(c: Class)
    ensures !Has(Gone, c)
  {
  }

  lemma MemberCounts(a: set<nat>, b: set<nat>, t: nat)
    requires forall x :: x != t ==> (x in b <==> x in a)
    ensures |b| == |a| + Bit(t in b) - Bit(t in a)
  {
    assert b == if t in b then a + {t} else a - {t};
    assert t in a ==> a + {t} == a;
    assert t !in a ==> a - {t} == a;
  }

  /** Every counter is the number of handlers that hold what it counts. */
  ghost predicate Conserved(s: State) {
    && s.inFlight == |Who(s, InAdmission)|
    && s.sessions == |Who(s, InSession)|
    && (forall i :: 0 <= i < |s.load| ==> s.load[i] == |Who(s, Holding(i))|)
    && (forall t :: t in s.handlers && (s.handlers[t].Synthesizing? || s.handlers[t].BatchOn?) ==>
      s.handlers[t].lease < |s.load|)
  }

  lemma StepConserves(s: State, step: Step)
    requires Conserved(s) && Enabled(s, step)
    ensures Conserved(Apply(s, step))
  {
    var s', t := Apply(s, step), step.who;
    CountersMove(s, step);
    MoveCounts(s, s', t, Target(s, step), InAdmission);
    MoveCounts(s, s', t, Target(s, step), InSession);
    forall i | 0 <= i < |s'.load| ensures s'.load[i] == |Who(s', Holding(i))| {
      MoveCounts(s, s', t, Target(s, step), Holding(i));
    }
  }

  /** Each counter moves exactly as the handler's holdings do. */
  lemma CountersMove(s: State, step: Step)
    requires Conserved(s) && Enabled(s, step)
    ensures var s', pc, pc' := Apply(s, step), At(s, step.who), Target(s, step);
      && s'.inFlight == s.inFlight + Bit(Has(pc', InAdmission)) - Bit(Has(pc, InAdmission))
      && s'.sessions == s.sessions + Bit(Has(pc', InSession)) - Bit(Has(pc, InSession))
      && |s'.load| == |s.load|
      && (forall i :: 0 <= i < |s.load| ==>
        s'.load[i] == s.load[i] + Bit(Has(pc', Holding(i))) - Bit(Has(pc, Holding(i))))
  {
    if step.Close? {
      assert step.who in Who(s, InAdmission);
    }
  }

  function Total(load: seq<int>): int {
    if load == [] then 0 else Total(load[..|load| - 1]) + load[|load| - 1]
  }

  lemma {:induction false} TotalIsHolders(s: State, n: nat)
    requires Conserved(s) && n <= |s.load|
    ensures Total(s.load[..n]) == |Who(s, HoldingBelow(n))|
  {
    if n == 0 {
      assert Who(s, HoldingBelow(0)) == {};
    } else {
      TotalIsHolders(s, n - 1);
      TotalSnoc(s.load, n - 1);
      HoldersSnoc(s, n - 1);
    }
  }

  lemma TotalSnoc(load: seq<int>, n: nat)
    requires n < |load|
    ensures Total(load[..n + 1]) == Total(load[..n]) + load[n]
  {
    assert load[..n + 1][..n] == load[..n];
  }

  lemma HoldersSnoc(s: State, n: nat)
    ensures |Who(s, HoldingBelow(n + 1))| == |Who(s, HoldingBelow(n))| + |Who(s, Holding(n))|
  {
    var a, b := Who(s, HoldingBelow(n)), Who(s, Holding(n));
    assert a !! b;
    assert Who(s, HoldingBelow(n + 1)) == a + b;
  }

  /** Leases never outnumber admitted streaming sessions and active batch calls. */
  lemma LeasesAreCovered(s: State)
    requires Conserved(s)
    ensures Total(s.load) == |Who(s, HoldingBelow(|s.load|))|
    ensures Total(s.load) <= s.sessions + |Who(s, InBatch)| <= s.inFlight + |Who(s, InBatch)|
  {
    TotalIsHolders(s, |s.load|);
    assert s.load[..|s.load|] == s.load;
    SubsetSize(Who(s, HoldingBelow(|s.load|)), Who(s, InSession) + Who(s, InBatch));
    assert |Who(s, InSession) + Who(s, InBatch)| <= |Who(s, InSession)| + |Who(s, InBatch)|;
    SubsetSize(Who(s, InSession), Who(s, InAdmission));
  }

  /** Over all runs, with every early return and error path: the counters are the holdings, leases
      are covered, and once all handlers have returned every counter is back to zero. */
  lemma {:induction false} CountersBalance(s: State, steps: seq<Step>)
    requires Conserved(s) && Legal(s, steps)
    ensures var end := Exec(s, steps);
      && Conserved(end)
      && Total(end.load) <= end.inFlight + |Who(end, InBatch)|
      && ((forall t :: t in end.handlers ==> end.handlers[t] == Gone) ==>
            end.inFlight == end.sessions == 0 && forall i :: 0 <= i < |end.load| ==> end.load[i] == 0)
    decreases |steps|
  {
    if steps != [] {
      StepConserves(s, steps[0]);
      CountersBalance(Apply(s, steps[0]), steps[1..]);
    } else {
      LeasesAreCovered(s);
      if forall t :: t in s.handlers ==> s.handlers[t] == Gone {
        forall c: Class ensures Who(s, c) == {} {
          assert forall t :: t in s.handlers ==> !Has(s.handlers[t], c);
        }
      }
    }
  }

  lemma InitialIsConserved(endpoints: nat)
    ensures Conserved(Initial(endpoints))
  {
    forall c: Class ensures Who(Initial(endpoints), c) == {} {
    }
  }
}
