/** The gateway as a whole: the handlers' counters and the lock-free admission controller in step. */
module Service {
  import opened Arith
  import Admission
  import Gateway

  datatype State = State(adm: Admission.State, gw: Gateway.State)

  // A handler enters with the controller's last step of `TryAdmit` and leaves with the first step
  // of its deferred `Release`.
  datatype Step =
    | Control(action: Admission.Step)
    | Enter(who: nat)
    | Leave(who: nat)
    | Handle(move: Gateway.Step)

  predicate Enabled(s: State, x: Step) {
    match x
    case Control(a) => Admission.Enabled(s.adm, a) && !a.Add? && !a.Subtract?
      && (a.Gate? ==> Gateway.At(s.gw, a.who) == Gateway.Gone)
    case Enter(t) => Admission.Enabled(s.adm, Admission.Add(t)) && Gateway.Enabled(s.gw, Gateway.Arrive(t, true))
    case Leave(t) => Admission.Enabled(s.adm, Admission.Subtract(t)) && Gateway.Enabled(s.gw, Gateway.Close(t))
    case Handle(g) =>
      && Gateway.Enabled(s.gw, g) && !g.Close? && !(g.Arrive? && g.admit)
      && (g.BatchArrive? ==> Admission.At(s.adm, g.who) == Admission.Idle)
  }

  function Apply(cfg: Admission.Config, s: State, x: Step): State
    requires Enabled(s, x)
  {
    match x
    case Control(a) => s.(adm := Admission.Apply(cfg, s.adm, a))
    case Enter(t) => State(Admission.Apply(cfg, s.adm, Admission.Add(t)), Gateway.Apply(s.gw, Gateway.Arrive(t, true)))
    case Leave(t) => State(Admission.Apply(cfg, s.adm, Admission.Subtract(t)), Gateway.Apply(s.gw, Gateway.Close(t)))
    case Handle(g) => s.(gw := Gateway.Apply(s.gw, g))
  }

  ghost predicate Legal(cfg: Admission.Config, s: State, steps: seq<Step>)
    decreases |steps|
  {
    steps == [] || (Enabled(s, steps[0]) && Legal(cfg, Apply(cfg, s, steps[0]), steps[1..]))
  }

  ghost function Exec(cfg: Admission.Config, s: State, steps: seq<Step>): State
    requires Legal(cfg, s, steps)
    decreases |steps|
  {
    if steps == [] then s else Exec(cfg, Apply(cfg, s, steps[0]), steps[1..])
  }

  /** At most `n` callers are inside `TryAdmit` at any time of the run. */
  ghost predicate AtMost(cfg: Admission.Config, s: State, steps: seq<Step>, n: nat)
    requires Legal(cfg, s, steps)
    decreases |steps|
  {
    |Admission.Inside(s.adm)| <= n && (steps != [] ==> AtMost(cfg, Apply(cfg, s, steps[0]), steps[1..], n))
  }

  // ---------------------------------------------------------------- the two sides agree

  predicate InSystem(s: State, t: nat) {
    Gateway.Has(Gateway.At(s.gw, t), Gateway.InAdmission)
  }

  /** The controller counts exactly the handlers that still owe it a release. */
  ghost predicate Coupled(s: State) {
    && Admission.Conserved(s.adm) && Gateway.Conserved(s.gw)
    && forall t: nat :: Admission.At(s.adm, t) == Admission.Admitted <==> InSystem(s, t)
  }

  /** A step of one side moves only its own thread. */
  lemma OneMoves(cfg: Admission.Config, s: State, x: Step, t: nat)
    requires Coupled(s) && Enabled(s, x)
    ensures var s' := Apply(cfg, s, x); Admission.At(s'.adm, t) == Admission.Admitted <==> InSystem(s', t)
  {
    assert Admission.At(s.adm, t) == Admission.Admitted <==> InSystem(s, t);
    match x
    case Control(a) => ControlAdmitsNobody(cfg, s.adm, a, t);
    case Enter(_) =>
    case Leave(_) =>
    case Handle(g) => HandleKeepsPlace(s.gw, g, t);
  }

  lemma ControlAdmitsNobody(cfg: Admission.Config, s: Admission.State, a: Admission.Step, t: nat)
    requires Admission.Enabled(s, a) && !a.Add? && !a.Subtract?
    ensures Admission.At(Admission.Apply(cfg, s, a), t) == Admission.Admitted
      <==> Admission.At(s, t) == Admission.Admitted
  {
  }

  lemma HandleKeepsPlace(s: Gateway.State, g: Gateway.Step, t: nat)
    requires Gateway.Enabled(s, g) && !g.Close? && !(g.Arrive? && g.admit)
    ensures Gateway.Has(Gateway.At(Gateway.Apply(s, g), t), Gateway.InAdmission)
      <==> Gateway.Has(Gateway.At(s, t), Gateway.InAdmission)
  {
  }

  lemma StepCouples(cfg: Admission.Config, s: State, x: Step)
    requires Coupled(s) && Enabled(s, x)
    ensures Coupled(Apply(cfg, s, x))
  {
    match x {
      case Control(a) => Admission.StepConserves(cfg, s.adm, a);
      case Enter(t) =>
        Admission.StepConserves(cfg, s.adm, Admission.Add(t));
        Gateway.StepConserves(s.gw, Gateway.Arrive(t, true));
      case Leave(t) =>
        Admission.StepConserves(cfg, s.adm, Admission.Subtract(t));
        Gateway.StepConserves(s.gw, Gateway.Close(t));
      case Handle(g) => Gateway.StepConserves(s.gw, g);
    }
    forall t: nat
      ensures Admission.At(Apply(cfg, s, x).adm, t) == Admission.Admitted <==> InSystem(Apply(cfg, s, x), t)
    {
      OneMoves(cfg, s, x, t);
    }
  }

  lemma StepStaysBounded(cfg: Admission.Config, s: State, x: Step, n: nat)
    requires Coupled(s) && Enabled(s, x) && Admission.Bounded(cfg, s.adm, n)
    requires |Admission.Inside(Apply(cfg, s, x).adm)| <= n
    ensures Admission.Bounded(cfg, Apply(cfg, s, x).adm, n)
  {
    match x
    case Control(a) => Admission.StepBounded(cfg, s.adm, a, n);
    case Enter(t) => Admission.StepBounded(cfg, s.adm, Admission.Add(t), n);
    case Leave(t) => Admission.StepBounded(cfg, s.adm, Admission.Subtract(t), n);
    case Handle(_) =>
  }

  /** Both counters of sessions in flight are the same number. */
  lemma SameCount(s: State)
    requires Coupled(s)
    ensures s.gw.inFlight == s.adm.inFlight
  {
    assert Admission.InFlightCallers(s.adm) == Gateway.Who(s.gw, Gateway.InAdmission) by {
      forall t: nat ensures t in Admission.InFlightCallers(s.adm) <==> t in Gateway.Who(s.gw, Gateway.InAdmission) {
        assert Admission.At(s.adm, t) == Admission.Admitted <==> InSystem(s, t);
      }
    }
  }

  /** The whole system over all runs: with at most `n` callers inside `TryAdmit` at once, leases
      across the pool never exceed the admission ceiling by more than `n - 1`, batch calls apart. */
  lemma {:induction false} LeasesAreAdmitted(cfg: Admission.Config, s: State, steps: seq<Step>, n: nat)
    requires Coupled(s) && Admission.Bounded(cfg, s.adm, n) && Legal(cfg, s, steps) && AtMost(cfg, s, steps, n)
    ensures var end := Exec(cfg, s, steps);
      && Coupled(end) && end.gw.inFlight == end.adm.inFlight
      && Gateway.Total(end.gw.load) <= Max(0, cfg.maxInFlight - 1 + n) + |Gateway.Who(end.gw, Gateway.InBatch)|
    decreases |steps|
  {
    if steps == [] {
      SameCount(s);
      Gateway.LeasesAreCovered(s.gw);
    } else {
      StepCouples(cfg, s, steps[0]);
      StepStaysBounded(cfg, s, steps[0], n);
      LeasesAreAdmitted(cfg, Apply(cfg, s, steps[0]), steps[1..], n);
    }
  }

  function Initial(now: int, endpoints: nat): State {
    State(Admission.Initial(now), Gateway.Initial(endpoints))
  }

  lemma InitialIsCoupled(cfg: Admission.Config, now: int, endpoints: nat, n: nat)
    ensures Coupled(Initial(now, endpoints)) && Admission.Bounded(cfg, Initial(now, endpoints).adm, n)
  {
    Gateway.InitialIsConserved(endpoints);
    assert Admission.InFlightCallers(Admission.Initial(now)) == {};
    assert Admission.Committed(Admission.Initial(now)) == {};
  }
}
