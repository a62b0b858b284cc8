/** The installation gate: a named mutex that exists as long as any handle to it is
    open, and the directory leases of the instances beside it. Any number of
    processes take the steps of installationactivity_win.cpp in any order. */
module Gates {
  import opened Wrappers

  type Proc = nat

  /** Where a process stands between entering the directory and reserving it. */
  datatype Phase =
    | Outside
    | Probed                 // probeEntry saw no mutex; the lease is not open yet
    | Inside                 // entered: lease open
    | Claimed                // owns the mutex, lease still open
    | Quiet                  // owns the mutex, own lease closed for the probe
    | Checked                // the exclusive probe found no other lease
    | Reserved               // owns the mutex, own lease open again
    | Leaving(restored: bool) // a failed reservation, mutex not yet released

  datatype Gate = Gate(phases: map<Proc, Phase>, observers: set<(Proc, nat)>)

  datatype Action =
    | Probe | OpenLease | Leave
    | Claim | Quiesce | Check | Restore | GiveUp(restored: bool) | Release | Cancel
    | Observe(n: nat) | Forget(n: nat)
    | Die

  function PhaseOf(g: Gate, p: Proc): (phase: Phase) {
    if p in g.phases then g.phases[p] else Outside
  }

  predicate Leased(phase: Phase) {
    phase.Inside? || phase.Claimed? || phase.Reserved? || phase == Leaving(true)
  }

  /** Owning the mutex is one way of having a handle to it. */
  predicate Owns(phase: Phase) {
    phase.Claimed? || phase.Quiet? || phase.Checked? || phase.Reserved? || phase.Leaving?
  }

  /** The named object exists. */
  predicate Exists(g: Gate) {
    g.observers != {} || exists p :: p in g.phases && Owns(g.phases[p])
  }

  /** What the exclusive open of the directory measures. */
  predicate OthersLeased(g: Gate, p: Proc) {
    exists q :: q in g.phases && q != p && Leased(g.phases[q])
  }

  function To(g: Gate, p: Proc, phase: Phase): (g': Gate) {
    g.(phases := g.phases[p := phase])
  }

  predicate Enabled(g: Gate, p: Proc, a: Action) {
    var phase := PhaseOf(g, p);
    match a
    case Probe => phase.Outside?
    case OpenLease => phase.Probed?
    case Leave => phase.Probed? || phase.Inside?
    case Claim => phase.Inside?
    case Quiesce => phase.Claimed?
    case Check => phase.Quiet? && !OthersLeased(g, p)
    case Restore => phase.Checked?
    case GiveUp(_) => phase.Claimed? || phase.Quiet? || phase.Checked?
    case Release => phase.Leaving?
    case Cancel => phase.Reserved?
    case Observe(n) => Exists(g)
    case Forget(n) => true
    case Die => true
  }

  /** A probe or a claim that finds the object is blocked and leaves no trace. */
  function Apply(g: Gate, p: Proc, a: Action): (g': Gate)
    requires Enabled(g, p, a)
  {
    match a
    case Probe => if Exists(g) then g else To(g, p, Probed)
    case OpenLease => To(g, p, Inside)
    case Leave => To(g, p, Outside)
    case Claim => if Exists(g) then g else To(g, p, Claimed)
    case Quiesce => To(g, p, Quiet)
    case Check => To(g, p, Checked)
    case Restore => To(g, p, Reserved)
    case GiveUp(restored) => To(g, p, Leaving(restored))
    case Release => To(g, p, if PhaseOf(g, p).restored then Inside else Outside)
    case Cancel => To(g, p, Inside)
    case Observe(n) => g.(observers := g.observers + {(p, n)})
    case Forget(n) => g.(observers := g.observers - {(p, n)})
    case Die => To(g, p, Outside).(observers := set o | o in g.observers && o.0 != p)
  }

  ghost predicate Next(g: Gate, g': Gate) {
    g == g' || exists p, a :: Enabled(g, p, a) && g' == Apply(g, p, a)
  }

  /** At most one process owns the mutex. */
  ghost predicate OneOwner(g: Gate) {
    forall p, q :: Owns(PhaseOf(g, p)) && Owns(PhaseOf(g, q)) ==> p == q
  }

  lemma OwnerKeeps(g: Gate, p: Proc)
    requires Owns(PhaseOf(g, p))
    ensures Exists(g)
  {
  }

  lemma OneOwnerStep(g: Gate, p: Proc, a: Action)
    requires OneOwner(g) && Enabled(g, p, a)
    ensures OneOwner(Apply(g, p, a))
  {
    hide Exists, OthersLeased;
    var g' := Apply(g, p, a);
    assert Owns(PhaseOf(g', p)) ==> Owns(PhaseOf(g, p)) || !Exists(g);
    forall q | q != p
      ensures PhaseOf(g', q) == PhaseOf(g, q)
      ensures Owns(PhaseOf(g, q)) ==> Exists(g)
    {
      if Owns(PhaseOf(g, q)) {
        OwnerKeeps(g, q);
      }
    }
  }

  /** While the object exists no process enters and no claim succeeds. */
  lemma Barred(g: Gate, p: Proc, a: Action, q: Proc)
    requires Exists(g) && Enabled(g, p, a)
    ensures PhaseOf(g, q).Outside? ==> PhaseOf(Apply(g, p, a), q).Outside?
    ensures !Owns(PhaseOf(g, q)) ==> !Owns(PhaseOf(Apply(g, p, a), q))
  {
    hide OthersLeased;
  }

  ghost predicate IsRun(run: seq<Gate>) {
    && |run| > 0 && OneOwner(run[0])
    && forall k :: 0 <= k < |run| - 1 ==> Next(run[k], run[k + 1])
  }

  lemma {:induction false} RunOneOwner(run: seq<Gate>, k: nat)
    requires IsRun(run) && k < |run|
    ensures OneOwner(run[k])
  {
    if k > 0 {
      RunOneOwner(run, k - 1);
      assert Next(run[k - 1], run[k]);
      if run[k - 1] != run[k] {
        var p, a :| Enabled(run[k - 1], p, a) && run[k] == Apply(run[k - 1], p, a);
        OneOwnerStep(run[k - 1], p, a);
      }
    }
  }

  /** The claim step itself moves nobody but the claimant. */
  lemma ClaimMovesOne(g: Gate, p: Proc, q: Proc)
    requires Enabled(g, p, Claim) && q != p
    ensures PhaseOf(Apply(g, p, Claim), q) == PhaseOf(g, q)
  {
    hide Exists;
  }

  /** Leases beside a reservation: the step from claim was p's successful claim, the
      step from check its successful exclusive probe, and p has owned the mutex ever
      since. Then any other open lease belongs to a process that had probed before the
      claim and opened its lease only after the exclusive probe. */
  lemma LeasesBesideReservation(run: seq<Gate>, claim: nat, check: nat, k: nat, p: Proc, q: Proc)
    requires IsRun(run) && claim < check < k < |run| && q != p
    requires Enabled(run[claim], p, Claim) && run[claim + 1] == Apply(run[claim], p, Claim)
    requires Enabled(run[check], p, Check)
    requires forall i :: claim < i <= k ==> Owns(PhaseOf(run[i], p))
    requires Leased(PhaseOf(run[k], q))
    ensures PhaseOf(run[claim], q).Probed? && PhaseOf(run[check], q).Probed?
  {
    hide Exists;
    RunOneOwner(run, check);
    assert Owns(PhaseOf(run[check], p));
    if PhaseOf(run[check], q).Outside? {
      StaysOutside(run, check, k, p, q);
    }
    assert !OthersLeased(run[check], p);
    ProbedBefore(run, claim + 1, check, p, q);
    ClaimMovesOne(run[claim], p, q);
  }

  /** And who is past a probe then was past it before. */
  lemma {:induction false} ProbedBefore(run: seq<Gate>, from: nat, k: nat, p: Proc, q: Proc)
    requires IsRun(run) && from <= k < |run| && q != p && PhaseOf(run[k], q).Probed?
    requires forall i :: from <= i <= k ==> Owns(PhaseOf(run[i], p))
    ensures PhaseOf(run[from], q).Probed?
    decreases k
  {
    hide Exists, Owns;
    if k > from {
      OwnerKeeps(run[k - 1], p);
      assert Next(run[k - 1], run[k]);
      if run[k - 1] != run[k] {
        var r, a :| Enabled(run[k - 1], r, a) && run[k] == Apply(run[k - 1], r, a);
        NoNewProbe(run[k - 1], r, a, q);
      }
      ProbedBefore(run, from, k - 1, p, q);
    }
  }

  lemma NoNewProbe(g: Gate, p: Proc, a: Action, q: Proc)
    requires Exists(g) && Enabled(g, p, a) && PhaseOf(Apply(g, p, a), q).Probed?
    ensures PhaseOf(g, q).Probed?
  {
    hide OthersLeased, Owns;
  }

  /** For as long as p owns the mutex nobody else gets past a probe. */
  lemma {:induction false} StaysOutside(run: seq<Gate>, from: nat, k: nat, p: Proc, q: Proc)
    requires IsRun(run) && from <= k < |run| && q != p && PhaseOf(run[from], q).Outside?
    requires forall i :: from <= i <= k ==> Owns(PhaseOf(run[i], p))
    ensures PhaseOf(run[k], q).Outside?
    decreases k
  {
    hide Exists;
    if k > from {
      StaysOutside(run, from, k - 1, p, q);
      OwnerKeeps(run[k - 1], p);
      assert Next(run[k - 1], run[k]);
      if run[k - 1] != run[k] {
        var r, a :| Enabled(run[k - 1], r, a) && run[k] == Apply(run[k - 1], r, a);
        Barred(run[k - 1], r, a, q);
      }
    }
  }
}
