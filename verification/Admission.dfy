/** Admission control: lock-free check-then-act code as interleaved atomic steps of any number of
    callers, and the controller as one caller at a time sees it. */
module Admission {
  import opened Arith

  datatype Config = Config(maxInFlight: int, maxQueueDepth: int, cooldown: int)

  datatype Reason = MaxInFlight | QueueDepth

  // `Never` is the zero time.
  datatype Trip = Never | Tripped(at: int, reason: Reason)

  datatype Decision = Admit | Reject(reason: Reason, coolingDown: bool)

  /** Where a caller is.  `Gated`, `Loaded`, `Cleared` and `Tripping` are inside `TryAdmit`. */
  datatype Pc =
    | Idle
    | Gated                      // past the cooldown gate
    | Loaded                     // saw room in flight
    | Cleared                    // saw a short queue, about to add itself
    | Tripping(reason: Reason)   // saw a threshold exceeded
    | Admitted                   // a session in flight
    | Releasing(left: int)       // subtracted itself, about to look at what was left

  datatype State = State(inFlight: int, queueDepth: int, trip: Trip, now: int, callers: map<nat, Pc>)

  datatype Step =
    | Tick(elapsed: nat)
    | Observe(depth: int)
    | Gate(who: nat)
    | Load(who: nat)
    | Queue(who: nat)
    | Add(who: nat)
    | Close(who: nat)
    | Subtract(who: nat)
    | Clamp(who: nat)

  function At(s: State, t: nat): Pc {
    if t in s.callers then s.callers[t] else Idle
  }

  predicate Open(cfg: Config, s: State) {
    s.trip == Never || s.now - s.trip.at >= cfg.cooldown
  }

  predicate Enabled(s: State, step: Step) {
    match step
    case Tick(_) => true
    case Observe(_) => true
    case Gate(t) => At(s, t) == Idle
    case Load(t) => At(s, t) == Gated
    case Queue(t) => At(s, t) == Loaded
    case Add(t) => At(s, t) == Cleared
    case Close(t) => At(s, t).Tripping?
    case Subtract(t) => At(s, t) == Admitted
    case Clamp(t) => At(s, t).Releasing?
  }

  function Move(s: State, t: nat, pc: Pc): State {
    s.(callers := s.callers[t := pc])
  }

  function Apply(cfg: Config, s: State, step: Step): State
    requires Enabled(s, step)
  {
    match step
    case Tick(elapsed) => s.(now := s.now + elapsed)
    case Observe(depth) => s.(queueDepth := depth)
    case Gate(t) => Move(s, t, if Open(cfg, s) then Gated else Idle)
    case Load(t) => Move(s, t, if s.inFlight >= cfg.maxInFlight then Tripping(MaxInFlight) else Loaded)
    case Queue(t) =>
      var full := cfg.maxQueueDepth > 0 && s.queueDepth >= cfg.maxQueueDepth;
      Move(s, t, if full then Tripping(QueueDepth) else Cleared)
    case Add(t) => Move(s.(inFlight := s.inFlight + 1), t, Admitted)
    case Close(t) => Move(s.(trip := Tripped(s.now, At(s, t).reason)), t, Idle)
    case Subtract(t) => Move(s.(inFlight := s.inFlight - 1), t, Releasing(s.inFlight - 1))
    case Clamp(t) => Move(if At(s, t).left < 0 then s.(inFlight := 0) else s, t, Idle)
  }

  ghost predicate Legal(cfg: Config, s: State, steps: seq<Step>)
    decreases |steps|
  {
    steps == [] || (Enabled(s, steps[0]) && Legal(cfg, Apply(cfg, s, steps[0]), steps[1..]))
  }

  ghost function Exec(cfg: Config, s: State, steps: seq<Step>): State
    requires Legal(cfg, s, steps)
    decreases |steps|
  {
    if steps == [] then s else Exec(cfg, Apply(cfg, s, steps[0]), steps[1..])
  }

  function Initial(now: int): State { State(0, 0, Never, now, map[]) }

  // ---------------------------------------------------------------- conservation

  ghost function InFlightCallers(s: State): set<nat> {
    set t | t in s.callers && s.callers[t] == Admitted
  }

  /** The counter is the number of sessions admitted and not yet released, and nobody who
      subtracted itself was left below zero. */
  ghost predicate Conserved(s: State) {
    && s.inFlight == |InFlightCallers(s)|
    && forall t :: t in s.callers && s.callers[t].Releasing? ==> s.callers[t].left >= 0
  }

  lemma StepConserves(cfg: Config, s: State, step: Step)
    requires Conserved(s) && Enabled(s, step)
    ensures Conserved(Apply(cfg, s, step))
  {
    match step
    case Tick(_) => assert InFlightCallers(Apply(cfg, s, step)) == InFlightCallers(s);
    case Observe(_) => assert InFlightCallers(Apply(cfg, s, step)) == InFlightCallers(s);
    case Gate(t) => MoveConserves(s, t, At(Apply(cfg, s, step), t), s);
    case Load(t) => MoveConserves(s, t, At(Apply(cfg, s, step), t), s);
    case Queue(t) => MoveConserves(s, t, At(Apply(cfg, s, step), t), s);
    case Close(t) => MoveConserves(s, t, Idle, s.(trip := Tripped(s.now, At(s, t).reason)));
    case Clamp(t) => MoveConserves(s, t, Idle, s);
    case Add(t) => MoveConserves(s, t, Admitted, s.(inFlight := s.inFlight + 1));
    case Subtract(t) => MoveConserves(s, t, Releasing(s.inFlight - 1), s.(inFlight := s.inFlight - 1));
  }

  /** A caller's move keeps the count if the counter goes up as it becomes a session and down as
      it stops being one. */
  lemma MoveConserves(s: State, t: nat, pc: Pc, r: State)
    requires Conserved(s) && r.callers == s.callers
    requires r.inFlight == s.inFlight + (if pc == Admitted then 1 else 0) - (if At(s, t) == Admitted then 1 else 0)
    requires pc.Releasing? && At(s, t) == Admitted ==> pc.left == s.inFlight - 1
    requires pc.Releasing? ==> At(s, t) == Admitted
    ensures Conserved(Move(r, t, pc))
  {
    var a, b := InFlightCallers(s), InFlightCallers(Move(r, t, pc));
    assert t in a <==> At(s, t) == Admitted;
    assert b == if pc == Admitted then a + {t} else a - {t};
    assert t !in a ==> a - {t} == a;
  }

  /** In every interleaving `inFlight` equals the sessions admitted and not yet released, so the
      clamp to zero in `Release` never has anything to do. */
  lemma {:induction false} InFlightIsConserved(cfg: Config, s: State, steps: seq<Step>)
    requires Conserved(s) && Legal(cfg, s, steps)
    ensures Conserved(Exec(cfg, s, steps))
    ensures forall t :: Enabled(Exec(cfg, s, steps), Clamp(t)) ==>
      Apply(cfg, Exec(cfg, s, steps), Clamp(t)).inFlight == Exec(cfg, s, steps).inFlight
    decreases |steps|
  {
    if steps != [] {
      StepConserves(cfg, s, steps[0]);
      InFlightIsConserved(cfg, Apply(cfg, s, steps[0]), steps[1..]);
    }
  }

  // ---------------------------------------------------------------- overshoot

  ghost function Inside(s: State): set<nat> {
    set t | t in s.callers
      && (s.callers[t] == Gated || s.callers[t] == Loaded || s.callers[t] == Cleared || s.callers[t].Tripping?)
  }

  /** Callers that saw room and have not added themselves yet. */
  ghost function Committed(s: State): set<nat> {
    set t | t in s.callers && (s.callers[t] == Loaded || s.callers[t] == Cleared)
  }

  /** At most `n` callers are inside `TryAdmit` at any time of the run. */
  ghost predicate AtMost(cfg: Config, s: State, steps: seq<Step>, n: nat)
    requires Legal(cfg, s, steps)
    decreases |steps|
  {
    |Inside(s)| <= n && (steps != [] ==> AtMost(cfg, Apply(cfg, s, steps[0]), steps[1..], n))
  }

  ghost predicate Bounded(cfg: Config, s: State, n: nat) {
    s.inFlight + |Committed(s)| <= Max(0, cfg.maxInFlight - 1 + n)
  }

  lemma StepBounded(cfg: Config, s: State, step: Step, n: nat)
    requires Bounded(cfg, s, n) && Conserved(s) && Enabled(s, step) && |Inside(Apply(cfg, s, step))| <= n
    ensures Bounded(cfg, Apply(cfg, s, step), n)
  {
    var s' := Apply(cfg, s, step);
    match step
    case Load(t) =>
      if s'.callers[t] == Loaded {
        SubsetSize(Committed(s'), Inside(s'));
      } else {
        assert Committed(s') == Committed(s);
      }
    case Queue(t) =>
      assert Committed(s') <= Committed(s);
      SubsetSize(Committed(s'), Committed(s));
    case Add(t) =>
      assert Committed(s') == Committed(s) - {t} && t in Committed(s);
    case _ =>
      assert Committed(s') == Committed(s);
  }

  /** With at most `n` callers inside `TryAdmit` at once the counter never exceeds the ceiling by
      more than `n - 1`; calls made one at a time never exceed it. */
  lemma {:induction false} OvershootIsBounded(cfg: Config, s: State, steps: seq<Step>, n: nat)
    requires Conserved(s) && Bounded(cfg, s, n) && Legal(cfg, s, steps) && AtMost(cfg, s, steps, n)
    ensures Exec(cfg, s, steps).inFlight <= Max(0, cfg.maxInFlight - 1 + n)
    decreases |steps|
  {
    if steps != [] {
      StepConserves(cfg, s, steps[0]);
      StepBounded(cfg, s, steps[0], n);
      OvershootIsBounded(cfg, Apply(cfg, s, steps[0]), steps[1..], n);
    }
  }

  // ---------------------------------------------------------------- the bound is attained

  lemma {:induction false} RunConcat(cfg: Config, s: State, u: seq<Step>, v: seq<Step>, n: nat)
    requires Legal(cfg, s, u) && AtMost(cfg, s, u, n)
    requires Legal(cfg, Exec(cfg, s, u), v) && AtMost(cfg, Exec(cfg, s, u), v, n)
    ensures Legal(cfg, s, u + v) && AtMost(cfg, s, u + v, n) && Exec(cfg, s, u + v) == Exec(cfg, Exec(cfg, s, u), v)
    decreases |u|
  {
    if u == [] {
      assert u + v == v;
    } else {
      assert (u + v)[0] == u[0] && (u + v)[1..] == u[1..] + v;
      RunConcat(cfg, Apply(cfg, s, u[0]), u[1..], v, n);
    }
  }

  /** `a` sessions in flight, callers `a..a + c` about to add themselves, everyone else idle. */
  ghost predicate Crowd(s: State, a: nat, c: nat) {
    && s.inFlight == a && s.queueDepth == 0 && s.trip == Never
    && (forall t: nat :: At(s, t) == if t < a then Admitted else if t < a + c then Cleared else Idle)
  }

  lemma CrowdInside(s: State, a: nat, c: nat)
    requires Crowd(s, a, c)
    ensures |Inside(s)| <= c
  {
    forall t | t in Inside(s) ensures t in Range(a, c) {
      assert At(s, t) == s.callers[t];
    }
    SubsetSize(Inside(s), Range(a, c));
  }

  function Range(a: nat, c: nat): (r: set<nat>)
    ensures |r| == c && forall t :: t in r <==> a <= t < a + c
  {
    if c == 0 then {} else Range(a, c - 1) + {a + c - 1}
  }

  /** The next idle caller comes up to the point of adding itself. */
  lemma OneMore(cfg: Config, s: State, a: nat, c: nat, n: nat) returns (steps: seq<Step>)
    requires Crowd(s, a, c) && a < cfg.maxInFlight && c < n
    ensures Legal(cfg, s, steps) && AtMost(cfg, s, steps, n) && Crowd(Exec(cfg, s, steps), a, c + 1)
  {
    var t := a + c;
    steps := [Gate(t), Load(t), Queue(t)];
    var s1 := Apply(cfg, s, Gate(t));
    var s2 := Apply(cfg, s1, Load(t));
    var s3 := Apply(cfg, s2, Queue(t));
    assert forall q: nat :: q != t ==> At(s3, q) == At(s, q) == At(s1, q) == At(s2, q);
    CrowdInside(s, a, c);
    InsideOneMore(s, s1, t);
    InsideOneMore(s, s2, t);
    InsideOneMore(s, s3, t);
    ThreeSteps(cfg, s, Gate(t), Load(t), Queue(t), n);
  }

  lemma ThreeSteps(cfg: Config, s: State, x: Step, y: Step, z: Step, n: nat)
    requires Enabled(s, x) && Enabled(Apply(cfg, s, x), y) && Enabled(Apply(cfg, Apply(cfg, s, x), y), z)
    requires |Inside(s)| <= n && |Inside(Apply(cfg, s, x))| <= n && |Inside(Apply(cfg, Apply(cfg, s, x), y))| <= n
    requires |Inside(Apply(cfg, Apply(cfg, Apply(cfg, s, x), y), z))| <= n
    ensures Legal(cfg, s, [x, y, z]) && AtMost(cfg, s, [x, y, z], n)
    ensures Exec(cfg, s, [x, y, z]) == Apply(cfg, Apply(cfg, Apply(cfg, s, x), y), z)
  {
    var s1 := Apply(cfg, s, x);
    var s2 := Apply(cfg, s1, y);
    var s3 := Apply(cfg, s2, z);
    StepFirst(cfg, s2, z, [], n);
    StepFirst(cfg, s1, y, [z], n);
    StepFirst(cfg, s, x, [y, z], n);
    assert [y] + [z] == [y, z] && [x] + [y, z] == [x, y, z] && [z] + [] == [z];
  }

  lemma StepFirst(cfg: Config, s: State, x: Step, rest: seq<Step>, n: nat)
    requires Enabled(s, x) && Legal(cfg, Apply(cfg, s, x), rest)
    ensures Legal(cfg, s, [x] + rest) && Exec(cfg, s, [x] + rest) == Exec(cfg, Apply(cfg, s, x), rest)
    ensures |Inside(s)| <= n && AtMost(cfg, Apply(cfg, s, x), rest, n) ==> AtMost(cfg, s, [x] + rest, n)
  {
    assert ([x] + rest)[1..] == rest;
  }

  lemma InsideOneMore(s: State, s': State, t: nat)
    requires forall q :: q in s'.callers && q != t ==> q in s.callers && s.callers[q] == s'.callers[q]
    ensures |Inside(s')| <= |Inside(s)| + 1
  {
    SubsetSize(Inside(s'), Inside(s) + {t});
  }

  lemma AddFirst(cfg: Config, s: State, a: nat, c: nat, n: nat)
    requires Crowd(s, a, c) && 0 < c <= n
    ensures Legal(cfg, s, [Add(a)]) && AtMost(cfg, s, [Add(a)], n) && Crowd(Exec(cfg, s, [Add(a)]), a + 1, c - 1)
  {
    var s' := Apply(cfg, s, Add(a));
    assert At(s, a) == Cleared;
    assert forall q: nat :: q != a ==> At(s', q) == At(s, q);
    CrowdInside(s, a, c);
    assert Crowd(s', a + 1, c - 1);
    CrowdInside(s', a + 1, c - 1);
    assert [Add(a)][1..] == [];
  }

  lemma {:induction false} CrowdGrows(cfg: Config, s: State, a: nat, c: nat, n: nat) returns (steps: seq<Step>)
    requires Crowd(s, a, c) && a < cfg.maxInFlight && c <= n
    ensures Legal(cfg, s, steps) && AtMost(cfg, s, steps, n) && Crowd(Exec(cfg, s, steps), a, n)
    decreases n - c
  {
    CrowdInside(s, a, c);
    steps := [];
    if c < n {
      var u := OneMore(cfg, s, a, c, n);
      var v := CrowdGrows(cfg, Exec(cfg, s, u), a, c + 1, n);
      RunConcat(cfg, s, u, v, n);
      steps := u + v;
    }
  }

  lemma {:induction false} CrowdEnters(cfg: Config, s: State, a: nat, c: nat, n: nat) returns (steps: seq<Step>)
    requires Crowd(s, a, c) && c <= n
    ensures Legal(cfg, s, steps) && AtMost(cfg, s, steps, n) && Crowd(Exec(cfg, s, steps), a + c, 0)
    decreases c
  {
    CrowdInside(s, a, c);
    steps := [];
    if c > 0 {
      AddFirst(cfg, s, a, c, n);
      var v := CrowdEnters(cfg, Exec(cfg, s, [Add(a)]), a + 1, c - 1, n);
      RunConcat(cfg, s, [Add(a)], v, n);
      steps := [Add(a)] + v;
    }
  }

  lemma {:induction false} Fill(cfg: Config, s: State, a: nat, n: nat) returns (steps: seq<Step>)
    requires Crowd(s, 0, 0) && a < cfg.maxInFlight && n >= 1
    ensures Legal(cfg, s, steps) && AtMost(cfg, s, steps, n) && Crowd(Exec(cfg, s, steps), a, 0)
    decreases a
  {
    CrowdInside(s, 0, 0);
    steps := [];
    if a > 0 {
      var u := Fill(cfg, s, a - 1, n);
      var m := Exec(cfg, s, u);
      var v := OneMore(cfg, m, a - 1, 0, n);
      AddFirst(cfg, Exec(cfg, m, v), a - 1, 1, n);
      RunConcat(cfg, m, v, [Add(a - 1)], n);
      RunConcat(cfg, s, u, v + [Add(a - 1)], n);
      steps := u + (v + [Add(a - 1)]);
    }
  }

  /** The overshoot bound is exact: for every ceiling and every number of concurrent callers there
      is an interleaving that reaches it. */
  lemma OvershootIsAttained(cfg: Config, now: int, n: nat) returns (steps: seq<Step>)
    requires cfg.maxInFlight >= 1 && n >= 1
    ensures Legal(cfg, Initial(now), steps) && AtMost(cfg, Initial(now), steps, n)
    ensures Exec(cfg, Initial(now), steps).inFlight == cfg.maxInFlight - 1 + n
  {
    var s := Initial(now);
    var a := cfg.maxInFlight - 1;
    var u := Fill(cfg, s, a, n);
    var v := CrowdGrows(cfg, Exec(cfg, s, u), a, 0, n);
    RunConcat(cfg, s, u, v, n);
    var w := CrowdEnters(cfg, Exec(cfg, s, u + v), a, n, n);
    RunConcat(cfg, s, u + v, w, n);
    steps := u + v + w;
  }

  // ---------------------------------------------------------------- cooldown

  /** Callers past the gate that may still admit themselves. */
  ghost function Past(s: State): set<nat> {
    set t | t in s.callers && (s.callers[t] == Gated || s.callers[t] == Loaded || s.callers[t] == Cleared)
  }

  lemma {:induction false} ClockRuns(cfg: Config, s: State, steps: seq<Step>)
    requires Legal(cfg, s, steps)
    ensures s.now <= Exec(cfg, s, steps).now
    decreases |steps|
  {
    if steps != [] {
      ClockRuns(cfg, Apply(cfg, s, steps[0]), steps[1..]);
    }
  }

  /** A trip no older than `at` has happened. */
  predicate TrippedSince(s: State, at: int) {
    s.trip.Tripped? && at <= s.trip.at <= s.now
  }

  /** While it cools down, whoever is admitted was past the gate already, and is admitted once:
      the admissions are at most the callers that were past the gate when the trip happened. */
  lemma {:induction false} OnlyEarlierCallersGetIn(cfg: Config, s: State, steps: seq<Step>, at: int)
    requires Legal(cfg, s, steps) && TrippedSince(s, at) && Exec(cfg, s, steps).now < at + cfg.cooldown
    ensures forall i :: 0 <= i < |steps| && steps[i].Add? ==> steps[i].who in Past(s)
    ensures forall i, j :: 0 <= i < j < |steps| && steps[i].Add? && steps[j].Add? ==> steps[i].who != steps[j].who
    decreases |steps|
  {
    if steps != [] {
      var x, rest := steps[0], steps[1..];
      var s' := Apply(cfg, s, x);
      ClockRuns(cfg, s', rest);
      OnlyEarlierCallersGetIn(cfg, s', rest, at);
      GateIsShut(cfg, s, x);
      forall i | 0 < i < |steps| && steps[i].Add? ensures steps[i].who in Past(s') {
        assert steps[i] == rest[i - 1];
      }
      forall i, j | 0 < i < j < |steps| && steps[i].Add? && steps[j].Add? ensures steps[i].who != steps[j].who {
        assert steps[i] == rest[i - 1] && steps[j] == rest[j - 1];
      }
    }
  }

  /** With the gate shut nobody gets past it, and whoever is admitted is past it no longer. */
  lemma GateIsShut(cfg: Config, s: State, x: Step)
    requires Enabled(s, x) && !Open(cfg, s)
    ensures Past(Apply(cfg, s, x)) <= Past(s)
    ensures x.Add? ==> x.who in Past(s) && x.who !in Past(Apply(cfg, s, x))
  {
  }

  /** Only a threshold trip moves the trip time, so without another one the gate lets callers
      through again exactly from `cooldown` after the trip. */
  lemma {:induction false} GateReopensExactly(cfg: Config, s: State, steps: seq<Step>, t: nat)
    requires s.trip.Tripped? && Legal(cfg, s, steps) && (forall i :: 0 <= i < |steps| ==> !steps[i].Close?)
    requires At(Exec(cfg, s, steps), t) == Idle
    ensures Exec(cfg, s, steps).trip == s.trip
    ensures At(Apply(cfg, Exec(cfg, s, steps), Gate(t)), t) == Gated
      <==> Exec(cfg, s, steps).now >= s.trip.at + cfg.cooldown
    decreases |steps|
  {
    if steps != [] {
      assert forall i :: 0 <= i < |steps[1..]| ==> steps[1..][i] == steps[i + 1];
      GateReopensExactly(cfg, Apply(cfg, s, steps[0]), steps[1..], t);
    }
  }

  // ---------------------------------------------------------------- the controller

  class Controller {
    const cfg: Config
    var inFlight: int
    var queueDepth: int
    var trip: Trip

    constructor (cfg: Config)
      ensures this.cfg == cfg && inFlight == 0 && queueDepth == 0 && trip == Never
    {
      this.cfg := cfg;
      inFlight, queueDepth, trip := 0, 0, Never;
    }

    method ObserveQueueDepth(depth: int)
      modifies `queueDepth
      ensures queueDepth == depth
    {
      queueDepth := depth;
    }

    method TripNow(reason: Reason, now: int)
      modifies `trip
      ensures trip == Tripped(now, reason)
    {
      trip := Tripped(now, reason);
    }

    /** One whole call: the gate reads the clock at `now`, a trip reads it again at `later`. */
    method TryAdmit(now: int, later: int) returns (d: Decision)
      modifies `inFlight, `trip
      ensures d == Decide(cfg, old(inFlight), queueDepth, old(trip), now)
      ensures inFlight == old(inFlight) + (if d == Admit then 1 else 0)
      ensures trip == if d.Reject? && !d.coolingDown then Tripped(later, d.reason) else old(trip)
      ensures d == Admit <==>
        && (old(trip) == Never || now >= old(trip).at + cfg.cooldown)
        && old(inFlight) < cfg.maxInFlight && (cfg.maxQueueDepth <= 0 || queueDepth < cfg.maxQueueDepth)
    {
      if trip != Never && now - trip.at < cfg.cooldown {
        return Reject(trip.reason, true);
      }
      if inFlight >= cfg.maxInFlight {
        TripNow(MaxInFlight, later);
        return Reject(MaxInFlight, false);
      }
      if cfg.maxQueueDepth > 0 && queueDepth >= cfg.maxQueueDepth {
        TripNow(QueueDepth, later);
        return Reject(QueueDepth, false);
      }
      inFlight := inFlight + 1;
      return Admit;
    }

    method Release()
      modifies `inFlight
      ensures inFlight == Max(0, old(inFlight) - 1)
    {
      inFlight := inFlight - 1;
      if inFlight < 0 {
        inFlight := 0;
      }
    }
  }

  function Decide(cfg: Config, inFlight: int, queueDepth: int, trip: Trip, now: int): Decision {
    if trip != Never && now - trip.at < cfg.cooldown then Reject(trip.reason, true)
    else if inFlight >= cfg.maxInFlight then Reject(MaxInFlight, false)
    else if cfg.maxQueueDepth > 0 && queueDepth >= cfg.maxQueueDepth then Reject(QueueDepth, false)
    else Admit
  }

  /** Why a call is refused: a recent trip first, for the reason it was made; then the sessions in
      flight; then the queue, at or above a positive ceiling only. */
  lemma RefusalReasons(cfg: Config, inFlight: int, queueDepth: int, trip: Trip, now: int)
    ensures var d := Decide(cfg, inFlight, queueDepth, trip, now);
      var cooling := trip.Tripped? && now < trip.at + cfg.cooldown;
      && (cooling ==> d == Reject(trip.reason, true))
      && (!cooling && inFlight >= cfg.maxInFlight ==> d == Reject(MaxInFlight, false))
      && (!cooling && inFlight < cfg.maxInFlight && queueDepth >= cfg.maxQueueDepth > 0 ==>
        d == Reject(QueueDepth, false))
      && (!cooling && inFlight < cfg.maxInFlight && cfg.maxQueueDepth <= 0 ==> d == Admit)
      && (!cooling && inFlight < cfg.maxInFlight && queueDepth < cfg.maxQueueDepth ==> d == Admit)
  {
  }

  /** In any interleaving: a caller that reads the queue goes on to admit itself exactly when the
      ceiling is not positive or not reached at that moment, and one that reads the sessions in
      flight goes on exactly when there is room; otherwise it trips, for that reason. */
  lemma StepsRefuse(cfg: Config, s: State, t: nat)
    ensures At(s, t) == Loaded ==>
      var pc := At(Apply(cfg, s, Queue(t)), t);
      if cfg.maxQueueDepth <= 0 || s.queueDepth < cfg.maxQueueDepth then pc == Cleared else pc == Tripping(QueueDepth)
    ensures At(s, t) == Gated ==>
      var pc := At(Apply(cfg, s, Load(t)), t);
      if s.inFlight < cfg.maxInFlight then pc == Loaded else pc == Tripping(MaxInFlight)
    ensures At(s, t).Tripping? ==>
      Apply(cfg, s, Close(t)).trip == Tripped(s.now, At(s, t).reason)
    ensures forall depth :: Apply(cfg, s, Observe(depth)).queueDepth == depth
  {
  }

  /** The atomic steps one undisturbed call takes; `elapsed` passes before a trip. */
  function CallSteps(d: Decision, t: nat, elapsed: nat): seq<Step> {
    [Gate(t)] + match d
      case Admit => [Load(t)] + ([Queue(t)] + [Add(t)])
      case Reject(_, true) => []
      case Reject(MaxInFlight, false) => [Load(t)] + ([Tick(elapsed)] + [Close(t)])
      case Reject(QueueDepth, false) => [Load(t)] + ([Queue(t)] + ([Tick(elapsed)] + [Close(t)]))
  }

  /** The steps refine the controller: run without interruption they decide, count and trip as one
      call does. */
  lemma StepsRefineTryAdmit(cfg: Config, s: State, t: nat, elapsed: nat)
    requires At(s, t) == Idle
    ensures var d := Decide(cfg, s.inFlight, s.queueDepth, s.trip, s.now);
      && Legal(cfg, s, CallSteps(d, t, elapsed))
      && var s' := Exec(cfg, s, CallSteps(d, t, elapsed));
      && s'.inFlight == s.inFlight + (if d == Admit then 1 else 0)
      && s'.trip == (if d.Reject? && !d.coolingDown then Tripped(s.now + elapsed, d.reason) else s.trip)
      && At(s', t) == (if d == Admit then Admitted else Idle)
  {
    var d := Decide(cfg, s.inFlight, s.queueDepth, s.trip, s.now);
    var s1 := Apply(cfg, s, Gate(t));
    if d.Reject? && d.coolingDown {
      StepFirst(cfg, s, Gate(t), [], 0);
    } else {
      var s2 := Apply(cfg, s1, Load(t));
      if d == Admit {
        var s3 := Apply(cfg, s2, Queue(t));
        LastStep(cfg, s3, Add(t));
        StepFirst(cfg, s2, Queue(t), [Add(t)], 0);
        StepFirst(cfg, s1, Load(t), [Queue(t)] + [Add(t)], 0);
        StepFirst(cfg, s, Gate(t), [Load(t)] + ([Queue(t)] + [Add(t)]), 0);
      } else if d.reason == MaxInFlight {
        TripSteps(cfg, s2, t, elapsed);
        StepFirst(cfg, s1, Load(t), [Tick(elapsed)] + [Close(t)], 0);
        StepFirst(cfg, s, Gate(t), [Load(t)] + ([Tick(elapsed)] + [Close(t)]), 0);
      } else {
        TripSteps(cfg, Apply(cfg, s2, Queue(t)), t, elapsed);
        StepFirst(cfg, s2, Queue(t), [Tick(elapsed)] + [Close(t)], 0);
        StepFirst(cfg, s1, Load(t), [Queue(t)] + ([Tick(elapsed)] + [Close(t)]), 0);
        StepFirst(cfg, s, Gate(t), [Load(t)] + ([Queue(t)] + ([Tick(elapsed)] + [Close(t)])), 0);
      }
    }
  }

  lemma LastStep(cfg: Config, s: State, x: Step)
    requires Enabled(s, x)
    ensures Legal(cfg, s, [x]) && Exec(cfg, s, [x]) == Apply(cfg, s, x)
  {
    assert [x][1..] == [];
  }

  lemma TripSteps(cfg: Config, s: State, t: nat, elapsed: nat)
    requires At(s, t).Tripping?
    ensures Legal(cfg, s, [Tick(elapsed)] + [Close(t)])
    ensures Exec(cfg, s, [Tick(elapsed)] + [Close(t)]) == Apply(cfg, Apply(cfg, s, Tick(elapsed)), Close(t))
  {
    LastStep(cfg, Apply(cfg, s, Tick(elapsed)), Close(t));
    StepFirst(cfg, s, Tick(elapsed), [Close(t)], 0);
  }
}
